/**
 * The usage monitor's ledger: one usage record per (user, ISO date) in the
 * `daily_usage` collection, and the append-only `alerts` collection.
 */
module UsageMonitor {
  import opened Wrappers
  import opened IsoDates
  import opened ServiceTypes
  import opened UsageModels

  const DailyBandwidthLimitMb: real := 100.0
  /** Alerts start at this fraction of the daily cap. */
  const ApproachingFraction: real := 0.8

  /** A record's key: the username and the day in YYYY-MM-DD form. */
  type UsageKey = (string, string)
  type Ledger = map<UsageKey, UsageRecord>

  /** The key of `username`'s record for `today`. */
  function KeyFor(username: string, today: Date): (k: UsageKey)
    requires ValidDate(today)
    ensures k.0 == username
    ensures FromIsoFormat(k.1) == Some(today)
  {
    IsoFormatRoundTrip(today);
    (username, IsoFormat(today))
  }

  /** A stored record sits under its own key, carries a valid date, and its total is upload + download. */
  predicate WellFormedEntry(k: UsageKey, rec: UsageRecord) {
    && rec.username == k.0
    && rec.date == k.1
    && IsIsoDate(k.1)
    && rec.totalVolumeMb == rec.uploadVolumeMb + rec.downloadVolumeMb
  }

  ghost predicate LedgerValid(ledger: Ledger) {
    forall k | k in ledger :: WellFormedEntry(k, ledger[k])
  }

  /** Storing a well-formed record under its own key keeps the ledger valid. */
  lemma UpdateKeepsValid(ledger: Ledger, key: UsageKey, rec: UsageRecord)
    requires LedgerValid(ledger) && WellFormedEntry(key, rec)
    ensures LedgerValid(ledger[key := rec])
  {
  }

  /**
   * Turning a stored document into a `UsageRecord` (`UsageRecord(**usage)`):
   * fails when a volume has gone negative; otherwise the total is recomputed.
   */
  function ReadUsage(doc: UsageRecord): (r: Result<UsageRecord, Reason>)
    ensures IsIsoDate(doc.date) ==> (r.Ok? <==> doc.uploadVolumeMb >= 0.0 && doc.downloadVolumeMb >= 0.0)
    ensures r.Ok? ==> r.value == doc.(totalVolumeMb := doc.uploadVolumeMb + doc.downloadVolumeMb)
    ensures r.Ok? ==> r.value.totalVolumeMb >= 0.0
    ensures r.Err? ==> r.error == InvalidUsageRecord
  {
    match Revalidate(doc)
    case Ok(rec) => Ok(rec)
    case Err(_) => Err(InvalidUsageRecord)
  }

  /**
   * The ledger after `get_daily_usage`: an existing record stays as it is;
   * a missing one is inserted with every volume 0.
   */
  function WithDailyRecord(ledger: Ledger, username: string, today: Date, now: Timestamp): (m: Ledger)
    requires ValidDate(today)
    ensures KeyFor(username, today) in m
    ensures m.Keys == ledger.Keys + {KeyFor(username, today)}
    ensures forall k | k in ledger :: m[k] == ledger[k]
    ensures KeyFor(username, today) !in ledger ==>
              m[KeyFor(username, today)] == NewUsageRecord(username, IsoFormat(today), now)
    ensures LedgerValid(ledger) ==> LedgerValid(m)
  {
    var key := KeyFor(username, today);
    if key in ledger then ledger else ledger[key := NewUsageRecord(username, key.1, now)]
  }

  /** A second `get_daily_usage` for the same user and day inserts nothing. */
  lemma WithDailyRecordIdempotent(ledger: Ledger, username: string, today: Date, now: Timestamp, later: Timestamp)
    requires ValidDate(today)
    ensures var once := WithDailyRecord(ledger, username, today, now);
            WithDailyRecord(once, username, today, later) == once
  {
  }

  /**
   * The comparison of `can_use_bandwidth`: the day's total plus the request
   * stays within the cap; what is left of the day's 100 MB may be used up
   * exactly.
   */
  predicate FitsDailyLimit(totalMb: real, requiredMb: real): (ok: bool)
    ensures ok <==> requiredMb <= 100.0 - totalMb
  {
    totalMb + requiredMb <= DailyBandwidthLimitMb
  }

  /**
   * The `$inc` of `record_usage`: "upload" adds to the upload volume, every
   * other operation type to the download volume, and the total grows by the
   * same amount.
   */
  function Increment(rec: UsageRecord, volumeMb: real, operationType: string, now: Timestamp): (r: UsageRecord)
    ensures operationType == "upload" ==>
              r.uploadVolumeMb == rec.uploadVolumeMb + volumeMb && r.downloadVolumeMb == rec.downloadVolumeMb
    ensures operationType != "upload" ==>
              r.downloadVolumeMb == rec.downloadVolumeMb + volumeMb && r.uploadVolumeMb == rec.uploadVolumeMb
    ensures r.totalVolumeMb == rec.totalVolumeMb + volumeMb
    ensures r.username == rec.username && r.date == rec.date && r.lastUpdated == now
    ensures rec.totalVolumeMb == rec.uploadVolumeMb + rec.downloadVolumeMb ==>
              r.totalVolumeMb == r.uploadVolumeMb + r.downloadVolumeMb
  {
    if operationType == "upload" then
      rec.(uploadVolumeMb := rec.uploadVolumeMb + volumeMb,
           totalVolumeMb := rec.totalVolumeMb + volumeMb, lastUpdated := now)
    else
      rec.(downloadVolumeMb := rec.downloadVolumeMb + volumeMb,
           totalVolumeMb := rec.totalVolumeMb + volumeMb, lastUpdated := now)
  }

  /** The alert a post-increment total calls for: at the cap, from 80% of it, or none. */
  function Classify(totalMb: real): (r: Option<AlertType>)
    ensures r == Some(LimitExceeded) <==> totalMb >= 100.0
    ensures r == Some(ApproachingLimit) <==> 80.0 <= totalMb < 100.0
    ensures r == None <==> totalMb < 80.0
  {
    if totalMb >= DailyBandwidthLimitMb then Some(LimitExceeded)
    else if totalMb >= DailyBandwidthLimitMb * ApproachingFraction then Some(ApproachingLimit)
    else None
  }

  /** How serious a classification is. */
  function Severity(t: Option<AlertType>): nat {
    match t
    case None => 0
    case Some(ApproachingLimit) => 1
    case Some(LimitExceeded) => 2
  }

  /** A larger total never calls for a milder alert. */
  lemma ClassifyMonotone(a: real, b: real)
    requires a <= b
    ensures Severity(Classify(a)) <= Severity(Classify(b))
  {
  }

  /** The alerts one `record_usage` call writes for a post-increment total: one per qualifying call. */
  function AlertsFor(username: string, today: Date, totalMb: real, now: Timestamp): (r: seq<BandwidthAlert>)
    requires ValidDate(today)
    ensures |r| <= 1
    ensures |r| == 1 <==> totalMb >= DailyBandwidthLimitMb * ApproachingFraction
    ensures |r| == 1 ==> r[0] == BandwidthAlert(username, IsoFormat(today), Classify(totalMb).value,
                                                DailyBandwidthLimitMb, totalMb, now)
  {
    match Classify(totalMb)
    case None => []
    case Some(t) => [BandwidthAlert(username, IsoFormat(today), t, DailyBandwidthLimitMb, totalMb, now)]
  }

  /** The two collections the usage monitor works on. */
  class UsageMonitor {
    /** The `daily_usage` collection. */
    var dailyUsage: Ledger
    /** The `alerts` collection, in insertion order. */
    var alerts: seq<BandwidthAlert>

    ghost predicate Valid()
      reads this
    {
      LedgerValid(dailyUsage) && forall i | 0 <= i < |alerts| :: WellFormedAlert(alerts[i])
    }

    constructor ()
      ensures Valid()
      ensures dailyUsage == map[] && alerts == []
    {
      dailyUsage := map[];
      alerts := [];
    }

    /** `get_daily_usage`: get or create the day's record, then read it back. */
    method GetDailyUsage(username: string, today: Date, now: Timestamp) returns (r: Result<UsageRecord, Reason>)
      requires Valid() && ValidDate(today)
      modifies this
      ensures Valid() && alerts == old(alerts)
      ensures dailyUsage == WithDailyRecord(old(dailyUsage), username, today, now)
      ensures r == ReadUsage(dailyUsage[KeyFor(username, today)])
    {
      var key := KeyFor(username, today);
      if key !in dailyUsage {
        dailyUsage := dailyUsage[key := NewUsageRecord(username, key.1, now)];
      }
      r := ReadUsage(dailyUsage[key]);
    }

    /** `can_use_bandwidth`: get or create the day's record, then compare against the cap. */
    method CanUseBandwidth(username: string, requiredMb: real, today: Date, now: Timestamp)
      returns (r: Result<bool, Reason>)
      requires Valid() && ValidDate(today)
      modifies this
      ensures Valid() && alerts == old(alerts)
      ensures dailyUsage == WithDailyRecord(old(dailyUsage), username, today, now)
      ensures r.Ok? <==> ReadUsage(dailyUsage[KeyFor(username, today)]).Ok?
      ensures r.Ok? ==> (r.value <==> FitsDailyLimit(dailyUsage[KeyFor(username, today)].totalVolumeMb, requiredMb))
      ensures r.Err? ==> r.error == InvalidUsageRecord
    {
      var usage := GetDailyUsage(username, today, now);
      match usage
      case Err(e) => r := Err(e);
      case Ok(rec) => r := Ok(FitsDailyLimit(rec.totalVolumeMb, requiredMb));
    }

    /** `create_alert`: validate a `BandwidthAlert` dated today and append it. */
    method CreateAlert(username: string, today: Date, alertType: AlertType, thresholdMb: real,
                       currentUsageMb: real, now: Timestamp)
      returns (r: Result<BandwidthAlert, set<AlertField>>)
      requires Valid() && ValidDate(today)
      modifies this
      ensures Valid() && dailyUsage == old(dailyUsage)
      ensures r == ValidateBandwidthAlert(username, IsoFormat(today), alertType, thresholdMb, currentUsageMb, now)
      ensures alerts == old(alerts) + (if r.Ok? then [r.value] else [])
    {
      r := ValidateBandwidthAlert(username, IsoFormat(today), alertType, thresholdMb, currentUsageMb, now);
      if r.Ok? {
        alerts := alerts + [r.value];
      }
    }

    /**
     * `record_usage`: the upserting increment, unconditionally, then a read
     * of the new record and the alert its total calls for.
     */
    method RecordUsage(username: string, volumeMb: real, operationType: string, today: Date, now: Timestamp)
      returns (r: Outcome<Reason>)
      requires Valid() && ValidDate(today)
      modifies this
      ensures Valid()
      ensures var key := KeyFor(username, today);
              var updated := Increment(WithDailyRecord(old(dailyUsage), username, today, now)[key],
                                       volumeMb, operationType, now);
              && dailyUsage == old(dailyUsage)[key := updated]
              && (r.Pass? <==> ReadUsage(updated).Ok?)
              && (r.Fail? ==> r.error == InvalidUsageRecord)
              && alerts == old(alerts) + (if r.Pass? then AlertsFor(username, today, updated.totalVolumeMb, now) else [])
    {
      var key := KeyFor(username, today);
      var base := if key in dailyUsage then dailyUsage[key] else NewUsageRecord(username, key.1, now);
      assert base == WithDailyRecord(dailyUsage, username, today, now)[key];
      assert WellFormedEntry(key, base);
      var updated := Increment(base, volumeMb, operationType, now);
      UpdateKeepsValid(dailyUsage, key, updated);
      dailyUsage := dailyUsage[key := updated];
      var usage := GetDailyUsage(username, today, now);
      assert dailyUsage == old(dailyUsage)[key := updated];
      if usage.Err? {
        r := Fail(usage.error);
        return;
      }
      var total := usage.value.totalVolumeMb;
      assert total == updated.totalVolumeMb;
      ghost var expected := AlertsFor(username, today, total, now);
      if total >= DailyBandwidthLimitMb {
        var created := CreateAlert(username, today, LimitExceeded, DailyBandwidthLimitMb, total, now);
        assert created == Ok(expected[0]);
      } else if total >= DailyBandwidthLimitMb * ApproachingFraction {
        var created := CreateAlert(username, today, ApproachingLimit, DailyBandwidthLimitMb, total, now);
        assert created == Ok(expected[0]);
      } else {
        assert expected == [];
      }
      r := Pass;
    }
  }
}
