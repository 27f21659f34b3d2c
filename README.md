# Video storage and bandwidth ledger, modelled in Dafny

The system is a small video-hosting backend split into services that share
one MongoDB database.

- **Storage management service.** It keeps one `UserStorage` document per
  user: the running usage figure in MB plus the metadata of every stored
  video. It enforces two caps:
  - a 25 MB limit on a single file, inclusive;
  - a 50 MB quota per user.

  It accepts only `.mp4`, `.mov`, `.avi` and `.mkv` files, in any letter
  case. The files themselves live in a cloud bucket.
- **Usage monitor service.** It keeps one `UsageRecord` per user and
  calendar day: upload, download and total volume. It enforces a 100 MB
  daily cap on uploads. It writes an `APPROACHING_LIMIT` alert when a day's
  total reaches 80 MB and a `LIMIT_EXCEEDED` alert at 100 MB.

The storage service asks the usage monitor to charge every upload, download
and stream before it acts. Any answer other than 200 counts as a denial.
The user-account service validates new accounts: a username of 3 to 50
characters, and a password of at least 8 characters with a digit.

The model covers these pieces:
- the storage-quota ledger: the file validator, the quota and alert tests, and the upload, delete, download, stream, status and listing handlers;
- the daily bandwidth ledger: get-or-create of the day's record, the cap test, recording with alerts, and the record, status and alert-query handlers;
- the `UserCreate` validators.

Every handler is written two ways:
- a function from the state before the request to the state after it and the answer (`...Outcome`);
- a method that takes the handler's steps in order against a `StorageManager` or `UsageMonitor` object. Each method is proved to produce exactly what its function says.

The properties are proved as lemmas about those functions:
- quota and cap soundness, and admission of whatever fits (both caps are inclusive);
- conservation of the usage counter;
- that only today's record changes;
- that a refused request changes nothing;
- upload-then-delete round trips;
- the alert thresholds;
- the ordering and bound of the alert query.

Modules, one per file:
- `Wrappers`: `Option`, `Result`, `Outcome`.
- `ServiceTypes`: timestamps, status codes, rejection reasons.
- `Strings`: ASCII lower-casing, last index.
- `IsoDates`: `date.isoformat` and `date.fromisoformat`.
- `UserModels`: `UserCreate`.
- `UsageModels`: `UsageRecord`, `BandwidthAlert`.
- `UsageMonitor`: the monitor's helpers, with class `UsageMonitor`.
- `UsageService`: the monitor's endpoints.
- `StorageModels`: `FileMetadata`, `UserStorage`, `StorageStatus`.
- `StorageManager`: the storage helpers, with class `StorageManager`.
- `StorageFiles`: the file-list updates.
- `StorageService`: the storage endpoints.

The model makes these choices:
- Sizes in MB are exact rationals (`real`). A file of `n` bytes is `n / 1048576` MB.
- Clock readings are parameters of the operations:
  - `now`, the time stamp;
  - `today`, the calendar day;
  - `stamp`, the rendered upload time in an object name.
- `mimetypes.guess_type(filename)[0]` is the parameter `guess`.
- Every handler wraps its body in a catch-all that re-raises any exception as status 500 with the message. This includes the 400 and 404 errors it raises itself. Every rejection is therefore modelled as a 500 carrying the reason. The intended 400 or 404 status is never what the client sees.
- The charge to the usage monitor happens before the quota test. An upload that the quota then refuses still counts against the day's upload volume.
- A stored usage document is re-validated each time it is read, because it is rebuilt as `UsageRecord(**doc)`. A record whose volume went negative, which the record endpoint does not prevent, makes later reads fail. The model carries this as the reason `InvalidUsageRecord`.
- `get_user_storage` is modelled as written. On a user's first request it
  inserts the default record and then rebuilds the record with
  `UserStorage(**user_storage)`. Here `user_storage` is the model object, not
  a mapping, so the rebuild raises a `TypeError` (the reason
  `RecordNotAMapping`). As a result:
  - the first status, list, delete, download or stream request of each user
    is answered with a 500;
  - the first upload of a valid file is charged to the usage monitor, then
    answered with a 500, with no object and no metadata written;
  - the next request finds the inserted record and proceeds.

  The get-or-create the code evidently intends is `StorageManager.WithUserStorage`
  (see "## Findings").
- `delete_file` is modelled as written:
  - It looks up the first file with the name.
  - Its `$pull` then removes every entry with that name.
  - It subtracts only the first entry's size.

  Conservation of the usage counter is proved for uniquely named files. `StorageFiles.DuplicateNameLeavesUsageBehind` shows a two-entry case in which the counter drifts.

## Model

| member | source | states |
|---|---|---|
| UserModels.ContainsDigit | UserAccMgmtServ/models.py:17-18 | true exactly when some character is an ASCII digit (`re.search(r"[0-9]")`) |
| UserModels.ValidatePassword | UserAccMgmtServ/models.py:9-21 | accepts exactly the passwords of 8 or more characters holding a digit, returns them unchanged, and names the first failing rule (length before digit) |
| UserModels.ValidateUserCreate | UserAccMgmtServ/models.py:5-21 | accepts exactly a 3–50 character username with a valid password and keeps both fields unchanged; on failure reports each violated rule and only those |
| Strings.ToLower | StorageMgmtServ/utils.py:89 | same length, each character ASCII-lowered (`str.lower` on ASCII) |
| Strings.LastIndexOf | StorageMgmtServ/utils.py:89 | the last position holding the character, or -1 when none does (the search `splitext` makes) |
| IsoDates.IsoFormat | UsageMntrServ/utils.py:25 | `date.isoformat()` is ten characters with dashes at positions 4 and 7 |
| IsoDates.FromIsoFormat | UsageMntrServ/models.py:14-24 | only ten-character strings of real calendar dates are accepted |
| IsoDates.IsoFormatRoundTrip | UsageMntrServ/models.py:14-24 | parsing a date's `isoformat()` gives the date back, so the record key always passes the date validator |
| IsoDates.FromIsoFormatIsCanonical | UsageMntrServ/models.py:14-24 | every accepted string is the `isoformat()` of the date it denotes (only canonical keys validate) |
| IsoDates.IsoFormatIsIsoDate | UsageMntrServ/utils.py:29-33 | a new record's date string passes validation |
| IsoDates.DaysInMonth | UsageMntrServ/models.py:21 | between 28 and 31 days, 29 exactly for February of a Gregorian leap year |
| IsoDates.DecimalValueOfZeroPadded | UsageMntrServ/models.py:21 | reading back a zero-padded numeral gives the number |
| IsoDates.ZeroPaddedOfDecimalValue | UsageMntrServ/models.py:21 | re-padding a numeral's value gives the numeral back |
| UsageModels.ValidateUsageRecord | UsageMntrServ/models.py:6-31 | accepts exactly an ISO date with non-negative upload and download; the stored total is always upload + download; each failing field is reported |
| UsageModels.NewUsageRecord | UsageMntrServ/utils.py:29-33 | a new day's record has zero volumes and passes validation |
| UsageModels.Revalidate | UsageMntrServ/utils.py:36 | re-reading a stored document passes exactly when its date is YYYY-MM-DD and both volumes are non-negative; the total is then recomputed as their sum, so a consistent document comes back unchanged |
| UsageModels.ValidateBandwidthAlert | UsageMntrServ/models.py:37-55 | accepts exactly an ISO date with non-negative threshold and usage, and reports each failing field |
| UsageMonitor.KeyFor | UsageMntrServ/utils.py:24-26 | the (username, isoformat date) key parses back to the requested day |
| UsageMonitor.ReadUsage | UsageMntrServ/utils.py:36 | re-reading a stored document succeeds exactly when its volumes are non-negative, and recomputes the total |
| UsageMonitor.WithDailyRecord | UsageMntrServ/utils.py:17-36 | get-or-create adds only today's key, with a zero record when absent, leaves every existing record alone and keeps the ledger valid |
| UsageMonitor.WithDailyRecordIdempotent | UsageMntrServ/utils.py:24-34 | a second get-or-create for the same day inserts nothing |
| UsageMonitor.UsageMonitor.GetDailyUsage | UsageMntrServ/utils.py:17-36 | the ledger becomes the get-or-create of today's record and the answer is that record re-read; alerts untouched |
| UsageMonitor.FitsDailyLimit | UsageMntrServ/utils.py:44 | a request fits exactly when it is at most what is left of the day's 100 MB, which may be used up exactly |
| UsageMonitor.UsageMonitor.CanUseBandwidth | UsageMntrServ/utils.py:39-44 | answers whether today's total plus the request stays within 100 MB, after get-or-create; fails only on an invalid stored record |
| UsageMonitor.Increment | UsageMntrServ/utils.py:58-70 | "upload" adds to the upload volume, any other type to the download volume, the total grows by the same amount, and total = upload + download is kept |
| UsageMonitor.Classify | UsageMntrServ/utils.py:74-89 | LIMIT_EXCEEDED exactly at 100 MB or more, APPROACHING_LIMIT exactly in [80, 100), no alert below 80 |
| UsageMonitor.ClassifyMonotone | UsageMntrServ/utils.py:74-89 | a larger total never yields a milder alert |
| UsageMonitor.AlertsFor | UsageMntrServ/utils.py:72-110 | at most one alert, present exactly when the total reaches 80% of the cap, carrying today's date, the 100 MB threshold and the total |
| UsageMonitor.UsageMonitor.CreateAlert | UsageMntrServ/utils.py:92-110 | appends the validated alert, and only when it validates; the ledger is untouched |
| UsageMonitor.UsageMonitor.RecordUsage | UsageMntrServ/utils.py:47-89 | the ledger changes only at today's key, by the increment; succeeds exactly when the updated record re-reads; the alert appended is exactly the one the new total calls for |
| UsageService.RecordAndAnswer | UsageMntrServ/main.py:60-73 | record, alert and answer never drop an existing alert and add at most one; rejections are 500s |
| UsageService.RecordBandwidthOutcome | UsageMntrServ/main.py:30-78 | an unknown operation type changes nothing; any rejection is a 500; alerts only grow, by at most one; when an upload is admitted is pinned down by `UploadRecordedExactlyWhenItFits` |
| UsageService.RecordAndRead | UsageMntrServ/main.py:60-73 | the record-then-read tail leaves the monitor exactly as `RecordAndAnswer` says |
| UsageService.RecordBandwidthUsage | UsageMntrServ/main.py:30-78 | the handler's steps leave the monitor and answer exactly as `RecordBandwidthOutcome` says |
| UsageService.RecordAndAnswerEffect | UsageMntrServ/main.py:60-73 | the unconditional tail writes the incremented record at today's key only, keeps the ledger valid, answers the new total and remaining cap, and appends exactly the called-for alert |
| UsageService.RecordTouchesOnlyTodaysRecord | UsageMntrServ/utils.py:58-70 | every other user's and day's record is unchanged, no other key appears, and every record keeps total = upload + download |
| UsageService.InvalidOperationRecordsNothing | UsageMntrServ/main.py:40-46 | an operation type other than upload or download leaves both collections unchanged and is rejected |
| UsageService.UploadOverCapRecordsNothing | UsageMntrServ/main.py:48-58 | an upload that would take the day past 100 MB is rejected with only the day's record created, and no volume or alert recorded |
| UsageService.UploadRecordedExactlyWhenItFits | UsageMntrServ/main.py:48-73 | on a readable day's record, an upload of a non-negative volume is recorded and answered Ok exactly when the total plus the volume is at most 100 MB, equality included |
| UsageService.AdmittedUploadStaysWithinCap | UsageMntrServ/main.py:48-73 | an accepted upload leaves the day's total at most 100 MB and a non-negative remainder |
| UsageService.DownloadIsAlwaysRecorded | UsageMntrServ/main.py:48-73 | a download is never refused for the cap: its volume is added to the download total, the answer reports the new total, and the remainder may go negative |
| UsageService.SuccessfulRecordAccounting | UsageMntrServ/main.py:60-73 | on success the day's total grows by exactly the volume on the right side, the answer is (total, 100 − total), and an alert is appended exactly when the total is at least 80 MB |
| UsageService.UsageStatusOf | UsageMntrServ/main.py:96-106 | username, date and the three volumes are those of the record and the limit is 100 MB; the percentage equals the total (the cap being 100); `remaining_mb` is exactly the room a further upload may use, negative iff over the cap; the percentage crosses 80 and 100 exactly where alerts do |
| UsageService.GetUsageStatus | UsageMntrServ/main.py:81-113 | get-or-create of today's record, then the status of the re-read record or a 500 |
| UsageService.FilterAlerts | UsageMntrServ/main.py:125-133 | keeps exactly the user's alerts (for the date when given), each with its multiplicity |
| UsageService.InsertNewestFirst | UsageMntrServ/main.py:134 | inserting into a newest-first list keeps it newest first and adds exactly the one alert |
| UsageService.SortNewestFirst | UsageMntrServ/main.py:134 | `.sort("timestamp", -1)` gives a newest-first permutation |
| UsageService.PrefixKeepsNewest | UsageMntrServ/main.py:135 | a prefix of a newest-first list is newest first, a sub-multiset, and nothing left out is newer than anything kept |
| UsageService.UserAlerts | UsageMntrServ/main.py:116-138 | returns min(matching, 100) alerts, newest first, all drawn from the matching ones, and none left out is newer than one returned |
| UsageService.UserAlertsMatchQuery | UsageMntrServ/main.py:125-130 | every returned alert belongs to the user and, when a date is given, to its `isoformat()` |
| UsageService.GetUserAlertsAsWritten | UsageMntrServ/main.py:131-143 | the endpoint as written always answers a 500: the synchronous query result is not awaitable |
| UsageService.AlertQueryAsWrittenLosesAlerts | UsageMntrServ/main.py:116-143 | a user with one stored alert gets a 500 from the endpoint as written, where the intended query returns exactly that alert |
| StorageModels.NewUserStorage | StorageMgmtServ/models.py:17-21 | a new record has no usage and no files, so its counter matches its files |
| StorageModels.TotalSizeConcat | StorageMgmtServ/main.py:101-108 | the size total is additive over appended file lists |
| StorageManager.Extension | StorageMgmtServ/utils.py:89 | `splitext` gives either nothing or a dot-led suffix of the name |
| StorageManager.ExtensionIsLastSuffix | StorageMgmtServ/utils.py:89 | the extension holds no further dot or slash: it is the last suffix |
| StorageManager.ExtensionOfJoined | StorageMgmtServ/utils.py:89 | `stem.e` has extension `.e` |
| StorageManager.LeadingDotsHaveNoExtension | StorageMgmtServ/utils.py:89 | a last component made only of dots up to its last dot (`.mp4`, `..mp4`, `dir/...mkv`) has no extension |
| StorageManager.AllowedExtensionIsLastFour | StorageMgmtServ/utils.py:89-93 | an extension on the allow-list is exactly the name's last four characters, the first of them a dot |
| StorageManager.AllowedExtension | StorageMgmtServ/utils.py:88-97 | a name passes the type test only when it ends in a dot and three characters that lower to one of `.mp4`, `.mov`, `.avi`, `.mkv` |
| StorageManager.Guessed | StorageMgmtServ/utils.py:100-102 | the guess counts exactly when it is neither missing nor the empty string (the two falsy answers) |
| StorageManager.FitsQuota | StorageMgmtServ/utils.py:111 | a size fits exactly when it is at most 50 MB less the usage, so filling the quota exactly is allowed |
| StorageManager.AllowedExtensionOfJoined | StorageMgmtServ/utils.py:88-97 | `stem.e` passes the type test exactly when `e` lowers to mp4, mov, avi or mkv |
| StorageManager.ValidateFile | StorageMgmtServ/utils.py:79-104 | the size test first, then the extension, then the mime guess; accepts exactly a file of at most 25 MB with an allowed extension and a non-empty guess, and returns the guess |
| StorageManager.SizeLimitIsInclusive | StorageMgmtServ/utils.py:82 | a file of exactly 25 MB is not refused for size |
| StorageManager.ShouldAlertUsage | StorageMgmtServ/utils.py:113-116 | alert exactly at usage of 40 MB (80% of 50) or more |
| StorageManager.StoreValidUpdate | StorageMgmtServ/main.py:101-108 | writing a sound record under its own username keeps the collection valid |
| StorageManager.WithUserStorage | StorageMgmtServ/utils.py:66-77 | get-or-create adds only the user's key, with a fresh empty record when absent, changes no record and keeps the collection valid |
| StorageManager.WithUserStorageIdempotent | StorageMgmtServ/utils.py:66-77 | a second get-or-create inserts nothing |
| StorageManager.FirstAccessInsertsButFails | StorageMgmtServ/utils.py:66-77 | the read succeeds exactly when the user already has a record, and then returns it; on first access the default record is inserted and the read fails with `RecordNotAMapping`, while a second read would return the inserted record |
| StorageManager.StorageManager.GetUserStorage | StorageMgmtServ/utils.py:66-77 | the collection becomes its get-or-create; the answer is the existing record, or on first access the `RecordNotAMapping` failure after the insert |
| StorageManager.StorageManager.CanUpload | StorageMgmtServ/utils.py:106-111 | fails with `RecordNotAMapping` exactly on the user's first access, after the insert; otherwise true exactly when current usage plus the size is at most 50 MB |
| StorageManager.StorageManager.ShouldAlert | StorageMgmtServ/utils.py:113-116 | fails with `RecordNotAMapping` exactly on the user's first access, after the insert; otherwise true exactly when usage is at least 40 MB |
| StorageManager.BandwidthGate | StorageMgmtServ/utils.py:135-138 | passes exactly on status 200, otherwise a bandwidth-limit denial |
| StorageManager.CheckBandwidth | StorageMgmtServ/utils.py:124-138 | the monitor changes exactly as a `record_bandwidth_usage` call does, and the gate passes exactly when that call succeeds |
| StorageFiles.FirstNamedIndex | StorageMgmtServ/main.py:136-140 | the first position with that name, or -1 when no file has it |
| StorageFiles.FindFile | StorageMgmtServ/main.py:136-140 | the handlers' search loop returns the file at `FirstNamedIndex`, or nothing |
| StorageFiles.RemoveNamed | StorageMgmtServ/main.py:156 | `$pull` by name: no entry of the name remains and every other entry keeps its multiplicity |
| StorageFiles.RemoveNamedDropsFirst | StorageMgmtServ/main.py:156-157 | the pull removes at least the size of the first match |
| StorageFiles.RemoveNamedUnique | StorageMgmtServ/main.py:156-157 | for a unique name the pull removes exactly the size that is subtracted |
| StorageFiles.RemoveNamedAbsent | StorageMgmtServ/main.py:156 | pulling an absent name changes nothing |
| StorageFiles.AddFile | StorageMgmtServ/main.py:104-106 | the new entry goes last behind the unchanged old list, its name is counted once more, the owner is kept, `last_updated` is the time given, and the gap between the counter and the files' total is unchanged |
| StorageFiles.DeleteEntry | StorageMgmtServ/main.py:156-158 | no entry of the name is left, every other entry keeps its multiplicity, and the counter drops by the subtracted size however many entries went |
| StorageFiles.AddFileConserves | StorageMgmtServ/main.py:101-108 | `$push` with `$inc` keeps the counter equal to the files' total and adds one entry |
| StorageFiles.AddFileKeepsSound | StorageMgmtServ/main.py:101-108 | an upload that fits keeps the record within the 50 MB quota |
| StorageFiles.DeleteEntryKeepsSound | StorageMgmtServ/main.py:152-160 | deleting keeps the counter at or above the files' total and within the quota, whatever duplicates exist |
| StorageFiles.DeleteEntryConservesUnique | StorageMgmtServ/main.py:152-160 | deleting a uniquely named file keeps the counter equal to the files' total |
| StorageFiles.DuplicateNameLeavesUsageBehind | StorageMgmtServ/main.py:136-160 | with two files of one name, both entries go but only the first size is subtracted, so the counter no longer matches |
| StorageFiles.AddThenDeleteRestores | StorageMgmtServ/main.py:101-160 | appending a newly named file then deleting that name restores the record apart from `last_updated` |
| StorageService.SizeMb | StorageMgmtServ/main.py:70-71 | the size in MB is non-negative and times 1048576 gives the byte count back |
| StorageService.BlobName | StorageMgmtServ/main.py:88 | the object name lies under `users/<username>/` and ends with the file name |
| StorageService.AdmitUpload | StorageMgmtServ/main.py:79-108 | the storage side of an upload fails only as a 500: the quota rejection for a known user, `RecordNotAMapping` on first access |
| StorageService.AdmitUploadEffect | StorageMgmtServ/main.py:79-108 | first access is refused; for a known user the upload is admitted exactly when usage plus size is at most 50 MB (equality included); any refusal changes only the get-or-create; an admission appends exactly the new metadata and writes its object |
| StorageService.StoreUpload | StorageMgmtServ/main.py:79-116 | the quota test, object write, metadata update and alert test leave the manager exactly as `AdmitUpload` says |
| StorageService.UploadStages | StorageMgmtServ/main.py:70-108 | a refused file changes and charges nothing; once the file is valid the charge stays whatever follows; a refused charge leaves storage alone; storage changes and success only after a valid file and a granted charge, for a known user; every error is a 500 |
| StorageService.UploadFileOutcome | StorageMgmtServ/main.py:59-120 | every upload rejection is answered as a 500 |
| StorageService.UploadAcceptedExactlyWhen | StorageMgmtServ/main.py:73-116 | an upload is answered Ok exactly when the file is valid, the usage monitor grants the charge, the user already has a record, and usage plus size is at most 50 MB |
| StorageService.UploadWithinBothCapsIsStored | StorageMgmtServ/main.py:73-116 | a known user's valid file that fits both today's 100 MB bandwidth cap and the 50 MB quota, on a readable day's record, is stored and answered Ok |
| StorageService.UploadFile | StorageMgmtServ/main.py:59-120 | the handler's steps leave both services exactly as `UploadFileOutcome` says and keep both valid |
| StorageService.UploadRejectionKeepsFiles | StorageMgmtServ/main.py:73-86 | a refused upload writes no object and changes no record beyond get-or-create; a file refused by validation charges no bandwidth |
| StorageService.FirstUploadIsChargedThenRefused | StorageMgmtServ/main.py:73-85 | a new user's valid upload is charged, then refused with `RecordNotAMapping`; the charge stays, no object is written and only the default record is inserted (nothing at all when the charge is refused) |
| StorageService.QuotaRejectionAfterCharge | StorageMgmtServ/main.py:76-85 | an upload refused by the quota after a granted charge is still counted in the day's upload volume |
| StorageService.SuccessfulUploadAppendsOne | StorageMgmtServ/main.py:87-116 | a successful upload appends exactly its metadata (name, exact size, guessed type, path under the user's folder), adds its size within the quota, writes its object, reports the alert test, and touches no other user |
| StorageService.AdmitAppendsOne | StorageMgmtServ/main.py:87-116 | the storage side of `SuccessfulUploadAppendsOne` |
| StorageService.UploadKeepsStoreValid | StorageMgmtServ/main.py:79-108 | an upload keeps every record within the 50 MB quota and at or above its files' total |
| StorageService.AdmitKeepsStoreValid | StorageMgmtServ/main.py:79-108 | the storage side of `UploadKeepsStoreValid` |
| StorageService.UploadConserves | StorageMgmtServ/main.py:100-108 | an upload keeps every counter equal to its files' total |
| StorageService.AdmitConserves | StorageMgmtServ/main.py:100-108 | the storage side of `UploadConserves` |
| StorageService.DeleteFileOutcome | StorageMgmtServ/main.py:123-167 | every delete rejection is answered as a 500 |
| StorageService.DeleteFile | StorageMgmtServ/main.py:123-167 | the handler's steps leave the manager exactly as `DeleteFileOutcome` says and keep it valid |
| StorageService.DeleteMissingFileChangesNothing | StorageMgmtServ/main.py:133-144 | deleting a name the user has no file of is rejected (not found, or `RecordNotAMapping` on first access) and changes nothing beyond get-or-create |
| StorageService.DeleteRemovesEveryEntryOfName | StorageMgmtServ/main.py:146-160 | a delete removes every entry of the name, keeps the others, subtracts the first match's size, removes its object, and touches no other user |
| StorageService.DeleteKeepsStoreValid | StorageMgmtServ/main.py:151-160 | a delete keeps every record within the quota and at or above its files' total |
| StorageService.DeleteConservesUniqueName | StorageMgmtServ/main.py:151-160 | deleting a uniquely named file succeeds and keeps the counter equal to the files' total |
| StorageService.UploadThenDeleteRestores | StorageMgmtServ/main.py:59-167 | a successful upload of a new name followed by its delete restores the storage records (apart from `last_updated`) and the bucket |
| StorageService.AdmitThenDeleteRestores | StorageMgmtServ/main.py:79-160 | the storage side of `UploadThenDeleteRestores` |
| StorageService.ServeFileOutcome | StorageMgmtServ/main.py:195-231 | every download or stream rejection is answered as a 500 |
| StorageService.LocateAndCharge | StorageMgmtServ/main.py:204-231 | the shared lookup, object check and charge leave both services exactly as `ServeFileOutcome` says |
| StorageService.DownloadFile | StorageMgmtServ/main.py:195-251 | serves the located file as an attachment named as requested with its stored type, or the located rejection |
| StorageService.StreamVideo | StorageMgmtServ/main.py:254-303 | streams the located file with its stored type, charged as a download |
| StorageService.ServeRejectionsChargeNothing | StorageMgmtServ/main.py:206-223 | a first access, a missing entry or a missing object is rejected before any charge, leaving the usage monitor unchanged |
| StorageService.FirstAccessIsRefused | StorageMgmtServ/main.py:131-223 | a new user's delete, download or stream inserts the default record and is refused with `RecordNotAMapping`, with the bucket, ledger and alerts unchanged |
| StorageService.ServeChargesFullSize | StorageMgmtServ/main.py:225-231 | a located file is served and charged as a download of its full recorded size |
| StorageService.StatusOf | StorageMgmtServ/main.py:40-48 | usage plus available space is 50 MB, the percentage is usage/50·100, and the alert flag is set exactly at 80% |
| StorageService.StatusWithinBounds | StorageMgmtServ/main.py:40-48 | for a sound record the available space is within [0, 50] and the percentage within [0, 100] |
| StorageService.GetStorageStatus | StorageMgmtServ/main.py:27-56 | get-or-create; a 500 with `RecordNotAMapping` exactly on first access, otherwise the status of the user's record |
| StorageService.ListFiles | StorageMgmtServ/main.py:170-182 | get-or-create; a 500 with `RecordNotAMapping` exactly on first access, otherwise exactly the user's file list |

## Findings

| source | as written | input that shows it | evidently intended | confidence | as-written member | corrected member |
|---|---|---|---|---|---|---|
| StorageMgmtServ/utils.py:74-77 | on first access the default record is inserted, then `UserStorage(**user_storage)` is applied to a model object, which is not a mapping and raises `TypeError` | any request of a user with no storage record, e.g. a first upload of a valid `clip.mp4` | return the new empty record (get-or-create) | high; not executed | StorageManager.FirstAccessInsertsButFails | StorageManager.WithUserStorage |
| UsageMntrServ/main.py:132-136 | the collection belongs to the synchronous driver, yet the endpoint `await`s the result of `find(query).sort(...).to_list(length=100)`, which is not awaitable, so the catch-all answers 500 | any alerts request, e.g. a user with one stored alert | return the user's matching alerts, newest first, at most 100 | high; not executed | UsageService.AlertQueryAsWrittenLosesAlerts | UsageService.UserAlerts |

## Left out

- Floating point: sizes, volumes and percentages are exact rationals. Rounding of `len / 1048576`, of the `$inc` sums and of the percentages is not modelled.
- Concurrency: each request runs alone. Two concurrent uploads can both pass `can_upload` and overrun the quota between the check and the update. Concurrent requests can also race on the daily record's upsert. Neither is modelled.
- Authentication: JWT decoding and `get_current_user` are not modelled. The username is a parameter, and the case where the token carries no username (`None`) is not represented.
- Logging: `send_log` and the `logging` calls are audit side effects and are left out. The general exception handler (`StorageMgmtServ/main.py:185-192`) is also left out, because the handlers' own catch-alls answer first.
- Cloud storage I/O: the bucket is modelled as the set of object names. Object contents, the upload with a content type, the download into memory and the chunked streaming are left out.
- HTTP transport: the `httpx` request of `check_bandwidth` is modelled as a direct call of the record endpoint. Transport failures, timeouts and the forwarded token are left out.
- Database failures: these are left out, as is the case in `get_user_storage` where a failing `find_one` leaves its variable unbound.
- Date parsing: only the `YYYY-MM-DD` form of `date.fromisoformat` is accepted. The extra forms that newer Python versions accept are left out.
- Non-ASCII letters: `str.lower` on them is not modelled; only ASCII letters are lowered.
- Clocks: `date.today()` and `datetime.utcnow()` are one reading per request. A request that runs across midnight is not modelled.
- Alert types: `alert_type` is a free string in the source; the model uses the two values the monitor writes.
- UserAlerts: this models the intended query. The endpoint as written always fails into its catch-all (see "## Findings"); that is `GetUserAlertsAsWritten`.
- ValidateUserCreate: reports the set of violated rules. The order and wording of pydantic's messages are not modelled.
- SizeMb: the size is exact. `file_size_mb` is a float in the source.
- DeleteConservesUniqueName: proved only for a name carried by one file. With duplicates, the counter drifts, as `StorageFiles.DuplicateNameLeavesUsageBehind` shows.
- UploadThenDeleteRestores: restores the storage side only. The upload's bandwidth charge stays in the usage ledger, and `last_updated` takes the delete's time.
- ServeChargesFullSize: assumes the day's stored volumes are non-negative. A record with a negative volume fails re-validation, and the serve is then refused.
- Services not modelled: the log service, the view-generator service, and the account service's database and token code (`crud.py`, `main.py`, `connction.py`).
