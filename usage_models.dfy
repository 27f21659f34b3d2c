/** The records of the usage monitor service and the validation they run on construction. */
module UsageModels {
  import opened Wrappers
  import opened IsoDates
  import opened ServiceTypes

  /** One user's bandwidth use on one day, in MB. */
  datatype UsageRecord = UsageRecord(
    username: string,
    date: string,
    uploadVolumeMb: real,
    downloadVolumeMb: real,
    totalVolumeMb: real,
    lastUpdated: Timestamp)

  /** A field of `UsageRecord` whose validation failed. */
  datatype UsageField = DateField | UploadVolume | DownloadVolume | TotalVolume

  /**
   * Constructing a `UsageRecord`: the date must be YYYY-MM-DD, every volume
   * must be at least 0, and the total is recomputed as upload + download
   * whenever both of those validated (otherwise the supplied total is
   * checked as it is).  All failing fields are reported.
   */
  function ValidateUsageRecord(
    username: string, date: string, upload: real, download: real, total: real, lastUpdated: Timestamp
  ): (r: Result<UsageRecord, set<UsageField>>)
    ensures r.Ok? <==> IsIsoDate(date) && upload >= 0.0 && download >= 0.0
    ensures r.Ok? ==> r.value == UsageRecord(username, date, upload, download, upload + download, lastUpdated)
    ensures r.Ok? ==> r.value.totalVolumeMb >= 0.0
    ensures r.Err? ==> (DateField in r.error <==> !IsIsoDate(date))
    ensures r.Err? ==> (UploadVolume in r.error <==> upload < 0.0)
    ensures r.Err? ==> (DownloadVolume in r.error <==> download < 0.0)
    ensures r.Err? ==> (TotalVolume in r.error <==> (upload < 0.0 || download < 0.0) && total < 0.0)
  {
    var checkedTotal := if upload >= 0.0 && download >= 0.0 then upload + download else total;
    var errors :=
      (if IsIsoDate(date) then {} else {DateField})
      + (if upload >= 0.0 then {} else {UploadVolume})
      + (if download >= 0.0 then {} else {DownloadVolume})
      + (if checkedTotal >= 0.0 then {} else {TotalVolume});
    if errors == {} then Ok(UsageRecord(username, date, upload, download, checkedTotal, lastUpdated))
    else Err(errors)
  }

  /**
   * `UsageRecord(username=..., date=..., last_updated=...)`: every volume at
   * its default of 0, and the defaults pass validation.
   */
  function NewUsageRecord(username: string, date: string, now: Timestamp): (r: UsageRecord)
    ensures r.uploadVolumeMb == 0.0 && r.downloadVolumeMb == 0.0 && r.totalVolumeMb == 0.0
    ensures IsIsoDate(date) ==> ValidateUsageRecord(username, date, 0.0, 0.0, 0.0, now) == Ok(r)
  {
    UsageRecord(username, date, 0.0, 0.0, 0.0, now)
  }

  /**
   * Reading a stored document back through the model, as `UsageRecord(**doc)`
   * does: it passes exactly when the date is YYYY-MM-DD and both volumes are
   * non-negative, and the total is then recomputed from them, so a document
   * whose total is already their sum comes back unchanged.
   */
  function Revalidate(doc: UsageRecord): (r: Result<UsageRecord, set<UsageField>>)
    ensures r.Ok? <==> IsIsoDate(doc.date) && doc.uploadVolumeMb >= 0.0 && doc.downloadVolumeMb >= 0.0
    ensures r.Ok? ==> r.value == doc.(totalVolumeMb := doc.uploadVolumeMb + doc.downloadVolumeMb)
    ensures r.Ok? && doc.totalVolumeMb == doc.uploadVolumeMb + doc.downloadVolumeMb ==> r == Ok(doc)
  {
    ValidateUsageRecord(doc.username, doc.date, doc.uploadVolumeMb, doc.downloadVolumeMb,
                        doc.totalVolumeMb, doc.lastUpdated)
  }

  /** The two alert kinds the monitor writes. */
  datatype AlertType = ApproachingLimit | LimitExceeded

  /** A bandwidth alert. */
  datatype BandwidthAlert = BandwidthAlert(
    username: string,
    date: string,
    alertType: AlertType,
    thresholdMb: real,
    currentUsageMb: real,
    timestamp: Timestamp)

  /** A field of `BandwidthAlert` whose validation failed. */
  datatype AlertField = AlertDate | Threshold | CurrentUsage

  /** Constructing a `BandwidthAlert`: YYYY-MM-DD date, threshold and usage at least 0. */
  function ValidateBandwidthAlert(
    username: string, date: string, alertType: AlertType, thresholdMb: real, currentUsageMb: real, timestamp: Timestamp
  ): (r: Result<BandwidthAlert, set<AlertField>>)
    ensures r.Ok? <==> IsIsoDate(date) && thresholdMb >= 0.0 && currentUsageMb >= 0.0
    ensures r.Ok? ==> r.value == BandwidthAlert(username, date, alertType, thresholdMb, currentUsageMb, timestamp)
    ensures r.Err? ==> (AlertDate in r.error <==> !IsIsoDate(date))
    ensures r.Err? ==> (Threshold in r.error <==> thresholdMb < 0.0)
    ensures r.Err? ==> (CurrentUsage in r.error <==> currentUsageMb < 0.0)
  {
    var errors :=
      (if IsIsoDate(date) then {} else {AlertDate})
      + (if thresholdMb >= 0.0 then {} else {Threshold})
      + (if currentUsageMb >= 0.0 then {} else {CurrentUsage});
    if errors == {} then Ok(BandwidthAlert(username, date, alertType, thresholdMb, currentUsageMb, timestamp))
    else Err(errors)
  }

  /** What every stored alert satisfies: it passed `ValidateBandwidthAlert`. */
  predicate WellFormedAlert(a: BandwidthAlert) {
    IsIsoDate(a.date) && a.thresholdMb >= 0.0 && a.currentUsageMb >= 0.0
  }
}
