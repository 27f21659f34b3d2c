/**
 * The endpoints of the usage monitor service: recording a transfer (the
 * admission point the storage service consults), the day's status, and the
 * alert query.
 */
module UsageService {
  import opened Wrappers
  import opened IsoDates
  import opened ServiceTypes
  import opened UsageModels
  import opened UsageMonitor

  /** The answer of a successful `record_bandwidth_usage`. */
  datatype RecordReply = RecordReply(currentUsageMb: real, remainingMb: real)

  /** Both collections after a `record_bandwidth_usage` call, and its answer. */
  datatype RecordOutcome = RecordOutcome(ledger: Ledger, alerts: seq<BandwidthAlert>, reply: Result<RecordReply, HttpError>)

  /** A rejection raised in the handler's try block, as its catch-all re-raises it. */
  function Rejected(reason: Reason): Result<RecordReply, HttpError> {
    Err(HttpError(InternalServerError, reason))
  }

  /**
   * The unconditional part of `record_bandwidth_usage`: record the volume,
   * alert on the new total, and answer with that total and what remains of
   * the cap.
   */
  function RecordAndAnswer(
    ledger: Ledger, alerts: seq<BandwidthAlert>, username: string, volumeMb: real,
    operationType: string, today: Date, now: Timestamp
  ): (o: RecordOutcome)
    requires ValidDate(today)
    ensures o.reply.Err? ==> o.reply.error.status == InternalServerError
    ensures alerts <= o.alerts && |o.alerts| <= |alerts| + 1
  {
    var key := KeyFor(username, today);
    var updated := Increment(WithDailyRecord(ledger, username, today, now)[key], volumeMb, operationType, now);
    match ReadUsage(updated)
    case Err(e) => RecordOutcome(ledger[key := updated], alerts, Rejected(e))
    case Ok(rec) =>
      RecordOutcome(ledger[key := updated], alerts + AlertsFor(username, today, rec.totalVolumeMb, now),
                    Ok(RecordReply(rec.totalVolumeMb, DailyBandwidthLimitMb - rec.totalVolumeMb)))
  }

  /**
   * What `record_bandwidth_usage` does: reject an unknown operation type;
   * for an upload, get or create the day's record and reject a volume that
   * would take the total past the cap; then record unconditionally.
   */
  function RecordBandwidthOutcome(
    ledger: Ledger, alerts: seq<BandwidthAlert>, username: string, volumeMb: real,
    operationType: string, today: Date, now: Timestamp
  ): (o: RecordOutcome)
    requires ValidDate(today)
    ensures operationType != "upload" && operationType != "download" ==>
              o == RecordOutcome(ledger, alerts, Rejected(InvalidOperationType))
    ensures o.reply.Err? ==> o.reply.error.status == InternalServerError
    ensures alerts <= o.alerts && |o.alerts| <= |alerts| + 1
  {
    if operationType != "upload" && operationType != "download" then
      RecordOutcome(ledger, alerts, Rejected(InvalidOperationType))
    else if operationType == "upload" then
      var touched := WithDailyRecord(ledger, username, today, now);
      var current := ReadUsage(touched[KeyFor(username, today)]);
      if current.Err? then RecordOutcome(touched, alerts, Rejected(current.error))
      else if !FitsDailyLimit(current.value.totalVolumeMb, volumeMb) then
        RecordOutcome(touched, alerts, Rejected(DailyLimitExceeded))
      else RecordAndAnswer(touched, alerts, username, volumeMb, operationType, today, now)
    else RecordAndAnswer(ledger, alerts, username, volumeMb, operationType, today, now)
  }

  /** The record-then-read tail of `record_bandwidth_usage`. */
  method RecordAndRead(monitor: UsageMonitor, username: string, volumeMb: real, operationType: string,
                       today: Date, now: Timestamp)
    returns (r: Result<RecordReply, HttpError>)
    requires monitor.Valid() && ValidDate(today)
    modifies monitor
    ensures monitor.Valid()
    ensures RecordOutcome(monitor.dailyUsage, monitor.alerts, r)
            == RecordAndAnswer(old(monitor.dailyUsage), old(monitor.alerts), username, volumeMb,
                               operationType, today, now)
  {
    var recorded := monitor.RecordUsage(username, volumeMb, operationType, today, now);
    if recorded.Fail? {
      return Err(HttpError(InternalServerError, recorded.error));
    }
    var usage := monitor.GetDailyUsage(username, today, now);
    r := Ok(RecordReply(usage.value.totalVolumeMb, DailyBandwidthLimitMb - usage.value.totalVolumeMb));
  }

  /** `record_bandwidth_usage`, step by step. */
  method RecordBandwidthUsage(monitor: UsageMonitor, username: string, volumeMb: real, operationType: string,
                              today: Date, now: Timestamp)
    returns (r: Result<RecordReply, HttpError>)
    requires monitor.Valid() && ValidDate(today)
    modifies monitor
    ensures monitor.Valid()
    ensures RecordOutcome(monitor.dailyUsage, monitor.alerts, r)
            == RecordBandwidthOutcome(old(monitor.dailyUsage), old(monitor.alerts), username, volumeMb,
                                      operationType, today, now)
  {
    if operationType != "upload" && operationType != "download" {
      return Err(HttpError(InternalServerError, InvalidOperationType));
    }
    if operationType == "upload" {
      ghost var key := KeyFor(username, today);
      var allowed := monitor.CanUseBandwidth(username, volumeMb, today, now);
      assert WellFormedEntry(key, monitor.dailyUsage[key]);
      if allowed.Err? {
        return Err(HttpError(InternalServerError, allowed.error));
      }
      if !allowed.value {
        return Err(HttpError(InternalServerError, DailyLimitExceeded));
      }
    }
    r := RecordAndRead(monitor, username, volumeMb, operationType, today, now);
  }

  /** What the unconditional tail does to the day's record, and what it answers on success. */
  lemma RecordAndAnswerEffect(
    ledger: Ledger, alerts: seq<BandwidthAlert>, username: string, volumeMb: real,
    operationType: string, today: Date, now: Timestamp)
    requires ValidDate(today) && LedgerValid(ledger)
    ensures var key := KeyFor(username, today);
            var before := WithDailyRecord(ledger, username, today, now)[key];
            var o := RecordAndAnswer(ledger, alerts, username, volumeMb, operationType, today, now);
            var total := before.totalVolumeMb + volumeMb;
            && o.ledger == ledger[key := Increment(before, volumeMb, operationType, now)]
            && (o.reply.Ok? ==> o.reply.value == RecordReply(total, DailyBandwidthLimitMb - total)
                                && o.alerts == alerts + AlertsFor(username, today, total, now))
            && (o.reply.Err? ==> o.alerts == alerts)
            && o.ledger.Keys == ledger.Keys + {key}
            && (forall k | k in ledger && k != key :: o.ledger[k] == ledger[k])
            && LedgerValid(o.ledger)
  {
    RecordAndAnswerLedger(ledger, alerts, username, volumeMb, operationType, today, now);
    RecordAndAnswerReply(ledger, alerts, username, volumeMb, operationType, today, now);
  }

  /** The ledger half of `RecordAndAnswerEffect`. */
  lemma RecordAndAnswerLedger(
    ledger: Ledger, alerts: seq<BandwidthAlert>, username: string, volumeMb: real,
    operationType: string, today: Date, now: Timestamp)
    requires ValidDate(today) && LedgerValid(ledger)
    ensures var key := KeyFor(username, today);
            var before := WithDailyRecord(ledger, username, today, now)[key];
            var o := RecordAndAnswer(ledger, alerts, username, volumeMb, operationType, today, now);
            && o.ledger == ledger[key := Increment(before, volumeMb, operationType, now)]
            && LedgerValid(o.ledger)
  {
    var key := KeyFor(username, today);
    var before := WithDailyRecord(ledger, username, today, now)[key];
    var updated := Increment(before, volumeMb, operationType, now);
    assert WellFormedEntry(key, before);
    assert RecordAndAnswer(ledger, alerts, username, volumeMb, operationType, today, now).ledger
        == ledger[key := updated];
    UpdateKeepsValid(ledger, key, updated);
  }

  /** The answer half of `RecordAndAnswerEffect`. */
  lemma RecordAndAnswerReply(
    ledger: Ledger, alerts: seq<BandwidthAlert>, username: string, volumeMb: real,
    operationType: string, today: Date, now: Timestamp)
    requires ValidDate(today) && LedgerValid(ledger)
    ensures var key := KeyFor(username, today);
            var before := WithDailyRecord(ledger, username, today, now)[key];
            var o := RecordAndAnswer(ledger, alerts, username, volumeMb, operationType, today, now);
            var total := before.totalVolumeMb + volumeMb;
            && (o.reply.Ok? ==> o.reply.value == RecordReply(total, DailyBandwidthLimitMb - total)
                                && o.alerts == alerts + AlertsFor(username, today, total, now))
            && (o.reply.Err? ==> o.alerts == alerts)
  {
    var key := KeyFor(username, today);
    var before := WithDailyRecord(ledger, username, today, now)[key];
    assert WellFormedEntry(key, before);
    var updated := Increment(before, volumeMb, operationType, now);
    assert updated.totalVolumeMb == updated.uploadVolumeMb + updated.downloadVolumeMb;
  }

  /**
   * Only the requester's record for today can change: every other user's and
   * every other day's record is left as it was, and every record keeps
   * total == upload + download.
   */
  lemma RecordTouchesOnlyTodaysRecord(
    ledger: Ledger, alerts: seq<BandwidthAlert>, username: string, volumeMb: real,
    operationType: string, today: Date, now: Timestamp)
    requires ValidDate(today) && LedgerValid(ledger)
    ensures var o := RecordBandwidthOutcome(ledger, alerts, username, volumeMb, operationType, today, now);
            && o.ledger.Keys <= ledger.Keys + {KeyFor(username, today)}
            && (forall k | k in ledger && k != KeyFor(username, today) :: k in o.ledger && o.ledger[k] == ledger[k])
            && LedgerValid(o.ledger)
  {
    var key := KeyFor(username, today);
    var touched := WithDailyRecord(ledger, username, today, now);
    var o := RecordBandwidthOutcome(ledger, alerts, username, volumeMb, operationType, today, now);
    if operationType == "upload" {
      var current := ReadUsage(touched[key]);
      if current.Ok? && FitsDailyLimit(current.value.totalVolumeMb, volumeMb) {
        RecordAndAnswerLedger(touched, alerts, username, volumeMb, operationType, today, now);
        assert o.ledger == RecordAndAnswer(touched, alerts, username, volumeMb, operationType, today, now).ledger;
      } else {
        assert o.ledger == touched;
      }
    } else if operationType == "download" {
      RecordAndAnswerLedger(ledger, alerts, username, volumeMb, operationType, today, now);
    }
  }

  /** An unknown operation type changes neither collection. */
  lemma InvalidOperationRecordsNothing(
    ledger: Ledger, alerts: seq<BandwidthAlert>, username: string, volumeMb: real,
    operationType: string, today: Date, now: Timestamp)
    requires ValidDate(today)
    requires operationType != "upload" && operationType != "download"
    ensures var o := RecordBandwidthOutcome(ledger, alerts, username, volumeMb, operationType, today, now);
            o.ledger == ledger && o.alerts == alerts && o.reply == Rejected(InvalidOperationType)
  {
  }

  /**
   * An upload that would take the day's total past the cap is rejected
   * before anything is recorded: at most the empty record is created, and
   * no alert is written.
   */
  lemma UploadOverCapRecordsNothing(
    ledger: Ledger, alerts: seq<BandwidthAlert>, username: string, volumeMb: real, today: Date, now: Timestamp)
    requires ValidDate(today) && LedgerValid(ledger)
    requires var rec := WithDailyRecord(ledger, username, today, now)[KeyFor(username, today)];
             rec.uploadVolumeMb >= 0.0 && rec.downloadVolumeMb >= 0.0
             && !FitsDailyLimit(rec.totalVolumeMb, volumeMb)
    ensures var o := RecordBandwidthOutcome(ledger, alerts, username, volumeMb, "upload", today, now);
            && o.reply == Rejected(DailyLimitExceeded)
            && o.ledger == WithDailyRecord(ledger, username, today, now)
            && o.alerts == alerts
  {
  }

  /**
   * The converse of the cap test: on a readable day's record, an upload of a
   * non-negative volume is recorded and answered exactly when it fits under
   * the cap, equality included.
   */
  lemma UploadRecordedExactlyWhenItFits(
    ledger: Ledger, alerts: seq<BandwidthAlert>, username: string, volumeMb: real, today: Date, now: Timestamp)
    requires ValidDate(today) && LedgerValid(ledger) && volumeMb >= 0.0
    requires var rec := WithDailyRecord(ledger, username, today, now)[KeyFor(username, today)];
             rec.uploadVolumeMb >= 0.0 && rec.downloadVolumeMb >= 0.0
    ensures var rec := WithDailyRecord(ledger, username, today, now)[KeyFor(username, today)];
            var o := RecordBandwidthOutcome(ledger, alerts, username, volumeMb, "upload", today, now);
            o.reply.Ok? <==> FitsDailyLimit(rec.totalVolumeMb, volumeMb)
  {
    var key := KeyFor(username, today);
    var touched := WithDailyRecord(ledger, username, today, now);
    assert WellFormedEntry(key, touched[key]);
  }

  /** An admitted upload never takes the day's total past the cap, so what remains is never negative. */
  lemma AdmittedUploadStaysWithinCap(
    ledger: Ledger, alerts: seq<BandwidthAlert>, username: string, volumeMb: real, today: Date, now: Timestamp)
    requires ValidDate(today) && LedgerValid(ledger)
    ensures var o := RecordBandwidthOutcome(ledger, alerts, username, volumeMb, "upload", today, now);
            o.reply.Ok? ==>
              && o.reply.value.currentUsageMb <= DailyBandwidthLimitMb
              && o.reply.value.remainingMb >= 0.0
              && o.ledger[KeyFor(username, today)].totalVolumeMb <= DailyBandwidthLimitMb
  {
    var key := KeyFor(username, today);
    var touched := WithDailyRecord(ledger, username, today, now);
    assert WellFormedEntry(key, touched[key]);
  }

  /**
   * A download is never held to the cap: while the day's volumes stay
   * non-negative it is always recorded, the total may pass 100 MB, and the
   * remaining volume reported is then negative.
   */
  lemma DownloadIsAlwaysRecorded(
    ledger: Ledger, alerts: seq<BandwidthAlert>, username: string, volumeMb: real, today: Date, now: Timestamp)
    requires ValidDate(today) && LedgerValid(ledger)
    requires volumeMb >= 0.0
    requires var rec := WithDailyRecord(ledger, username, today, now)[KeyFor(username, today)];
             rec.uploadVolumeMb >= 0.0 && rec.downloadVolumeMb >= 0.0
    ensures var key := KeyFor(username, today);
            var before := WithDailyRecord(ledger, username, today, now)[key];
            var o := RecordBandwidthOutcome(ledger, alerts, username, volumeMb, "download", today, now);
            && o.reply.Ok?
            && o.ledger[key].downloadVolumeMb == before.downloadVolumeMb + volumeMb
            && o.ledger[key].uploadVolumeMb == before.uploadVolumeMb
            && o.reply.value.currentUsageMb == before.totalVolumeMb + volumeMb
            && o.reply.value.remainingMb == DailyBandwidthLimitMb - o.reply.value.currentUsageMb
            && (o.reply.value.currentUsageMb > DailyBandwidthLimitMb ==> o.reply.value.remainingMb < 0.0)
  {
    var key := KeyFor(username, today);
    assert WellFormedEntry(key, WithDailyRecord(ledger, username, today, now)[key]);
  }

  /**
   * A successful call adds the volume to the day's total (and to the
   * direction's field), answers with that total and what remains of the cap,
   * and writes exactly one alert when the total is at least 80 MB and none
   * otherwise.
   */
  lemma SuccessfulRecordAccounting(
    ledger: Ledger, alerts: seq<BandwidthAlert>, username: string, volumeMb: real,
    operationType: string, today: Date, now: Timestamp)
    requires ValidDate(today) && LedgerValid(ledger)
    ensures var key := KeyFor(username, today);
            var before := WithDailyRecord(ledger, username, today, now)[key];
            var o := RecordBandwidthOutcome(ledger, alerts, username, volumeMb, operationType, today, now);
            var total := before.totalVolumeMb + volumeMb;
            o.reply.Ok? ==>
              && key in o.ledger
              && o.ledger[key].totalVolumeMb == total
              && o.ledger[key].totalVolumeMb == o.ledger[key].uploadVolumeMb + o.ledger[key].downloadVolumeMb
              && (operationType == "upload" ==> o.ledger[key].uploadVolumeMb == before.uploadVolumeMb + volumeMb)
              && (operationType == "download" ==> o.ledger[key].downloadVolumeMb == before.downloadVolumeMb + volumeMb)
              && o.reply.value == RecordReply(total, DailyBandwidthLimitMb - total)
              && (total >= 80.0 ==> o.alerts == alerts + [BandwidthAlert(username, IsoFormat(today),
                                        Classify(total).value, DailyBandwidthLimitMb, total, now)])
              && (total < 80.0 ==> o.alerts == alerts)
  {
    var touched := WithDailyRecord(ledger, username, today, now);
    var o := RecordBandwidthOutcome(ledger, alerts, username, volumeMb, operationType, today, now);
    if operationType == "upload" {
      if o.reply.Ok? {
        assert o == RecordAndAnswer(touched, alerts, username, volumeMb, operationType, today, now);
        WithDailyRecordIdempotent(ledger, username, today, now, now);
        RecordAndAnswerEffect(touched, alerts, username, volumeMb, operationType, today, now);
      }
    } else if operationType == "download" {
      RecordAndAnswerEffect(ledger, alerts, username, volumeMb, operationType, today, now);
    }
  }

  /** The answer of `get_usage_status`. */
  datatype UsageStatus = UsageStatus(
    username: string,
    date: string,
    uploadVolumeMb: real,
    downloadVolumeMb: real,
    totalVolumeMb: real,
    dailyLimitMb: real,
    remainingMb: real,
    usagePercentage: real)

  /**
   * The arithmetic of `get_usage_status`: what remains is the largest upload
   * the cap still admits, it is negative exactly when the total is past the
   * cap, and the percentage reaches 80 exactly when a record would alert.
   */
  function UsageStatusOf(username: string, rec: UsageRecord): (s: UsageStatus)
    ensures s.username == username && s.date == rec.date
    ensures s.uploadVolumeMb == rec.uploadVolumeMb && s.downloadVolumeMb == rec.downloadVolumeMb
    ensures s.totalVolumeMb == rec.totalVolumeMb && s.dailyLimitMb == DailyBandwidthLimitMb
    // with a 100 MB cap the percentage is the total itself
    ensures s.usagePercentage == rec.totalVolumeMb
    ensures forall v: real {:trigger FitsDailyLimit(rec.totalVolumeMb, v)} ::
              FitsDailyLimit(rec.totalVolumeMb, v) <==> v <= s.remainingMb
    ensures s.remainingMb < 0.0 <==> rec.totalVolumeMb > DailyBandwidthLimitMb
    ensures s.usagePercentage >= 80.0 <==> Classify(rec.totalVolumeMb).Some?
    ensures s.usagePercentage >= 100.0 <==> Classify(rec.totalVolumeMb) == Some(LimitExceeded)
  {
    UsageStatus(username, rec.date, rec.uploadVolumeMb, rec.downloadVolumeMb, rec.totalVolumeMb,
                DailyBandwidthLimitMb, DailyBandwidthLimitMb - rec.totalVolumeMb,
                (rec.totalVolumeMb / DailyBandwidthLimitMb) * 100.0)
  }

  /** `get_usage_status`: get or create the day's record and report on it. */
  method GetUsageStatus(monitor: UsageMonitor, username: string, today: Date, now: Timestamp)
    returns (r: Result<UsageStatus, HttpError>)
    requires monitor.Valid() && ValidDate(today)
    modifies monitor
    ensures monitor.Valid() && monitor.alerts == old(monitor.alerts)
    ensures monitor.dailyUsage == WithDailyRecord(old(monitor.dailyUsage), username, today, now)
    ensures var doc := monitor.dailyUsage[KeyFor(username, today)];
            match ReadUsage(doc)
            case Ok(rec) => r == Ok(UsageStatusOf(username, rec))
            case Err(e) => r == Err(HttpError(InternalServerError, e))
  {
    var usage := monitor.GetDailyUsage(username, today, now);
    match usage
    case Err(e) => r := Err(HttpError(InternalServerError, e));
    case Ok(rec) => r := Ok(UsageStatusOf(username, rec));
  }

  /** The most alerts one query returns. */
  const MaxAlertsReturned := 100

  /** The query `{"username": ..., "date": ...}`, the date part only when one is given. */
  predicate MatchesQuery(a: BandwidthAlert, username: string, date: Option<string>) {
    a.username == username && (date.None? || a.date == date.value)
  }

  /** The alerts the query selects, in collection order. */
  function FilterAlerts(alerts: seq<BandwidthAlert>, username: string, date: Option<string>): (r: seq<BandwidthAlert>)
    ensures forall i | 0 <= i < |r| :: MatchesQuery(r[i], username, date)
    ensures forall a :: multiset(r)[a] == if MatchesQuery(a, username, date) then multiset(alerts)[a] else 0
  {
    if alerts == [] then []
    else
      assert alerts == [alerts[0]] + alerts[1..];
      var rest := FilterAlerts(alerts[1..], username, date);
      if MatchesQuery(alerts[0], username, date) then [alerts[0]] + rest else rest
  }

  /** `.sort("timestamp", -1)`: newest first. */
  predicate NewestFirst(s: seq<BandwidthAlert>) {
    forall i, j | 0 <= i < j < |s| :: s[i].timestamp >= s[j].timestamp
  }

  /** Putting an alert no older than the head in front of a newest-first list keeps it newest first. */
  lemma ConsNewestFirst(a: BandwidthAlert, s: seq<BandwidthAlert>)
    requires NewestFirst(s)
    requires s != [] ==> s[0].timestamp <= a.timestamp
    ensures NewestFirst([a] + s)
  {
    var r := [a] + s;
    forall i, j | 0 <= i < j < |r|
      ensures r[i].timestamp >= r[j].timestamp
    {
      if i == 0 && j > 1 {
        assert r[1] == s[0] && r[j] == s[j - 1];
      }
    }
  }

  /** One step of the insertion sort: `a` goes in front of the first alert older than it. */
  function InsertNewestFirst(a: BandwidthAlert, s: seq<BandwidthAlert>): (r: seq<BandwidthAlert>)
    requires NewestFirst(s)
    ensures NewestFirst(r)
    ensures multiset(r) == multiset(s) + multiset{a}
    ensures |r| == |s| + 1 && (r[0] == a || (s != [] && r[0] == s[0]))
  {
    if s == [] then [a]
    else if s[0].timestamp >= a.timestamp then
      assert s == [s[0]] + s[1..];
      var rest := InsertNewestFirst(a, s[1..]);
      ConsNewestFirst(s[0], rest);
      [s[0]] + rest
    else
      ConsNewestFirst(a, s);
      [a] + s
  }

  function SortNewestFirst(s: seq<BandwidthAlert>): (r: seq<BandwidthAlert>)
    ensures NewestFirst(r)
    ensures multiset(r) == multiset(s)
  {
    if s == [] then []
    else
      assert s == [s[0]] + s[1..];
      InsertNewestFirst(s[0], SortNewestFirst(s[1..]))
  }

  /**
   * Cutting a newest-first list keeps it newest first, keeps only its own
   * elements, and leaves out only alerts no newer than any it keeps.
   */
  lemma {:induction false} PrefixKeepsNewest(sorted: seq<BandwidthAlert>, n: nat)
    requires NewestFirst(sorted) && n <= |sorted|
    ensures NewestFirst(sorted[..n])
    ensures multiset(sorted[..n]) <= multiset(sorted)
    ensures forall a, i | a in multiset(sorted) - multiset(sorted[..n]) && 0 <= i < n ::
              a.timestamp <= sorted[i].timestamp
  {
    assert sorted == sorted[..n] + sorted[n..];
    forall a, i | a in multiset(sorted) - multiset(sorted[..n]) && 0 <= i < n
      ensures a.timestamp <= sorted[i].timestamp
    {
      assert a in multiset(sorted[n..]);
      var k :| 0 <= k < |sorted[n..]| && sorted[n..][k] == a;
      assert sorted[n + k] == a;
    }
  }

  /** The date part of the query: the ISO form of the requested date. */
  function DateKey(date: Option<Date>): (r: Option<string>)
    requires date.Some? ==> ValidDate(date.value)
  {
    match date
    case None => None
    case Some(d) => Some(IsoFormat(d))
  }

  /**
   * `get_user_alerts`: the requester's alerts, on the requested date if one
   * is given, newest first, at most 100 of them, and none left out that is
   * newer than one returned.
   */
  function UserAlerts(alerts: seq<BandwidthAlert>, username: string, date: Option<Date>): (r: seq<BandwidthAlert>)
    requires date.Some? ==> ValidDate(date.value)
    ensures var matching := FilterAlerts(alerts, username, DateKey(date));
            && |r| == (if |matching| < MaxAlertsReturned then |matching| else MaxAlertsReturned)
            && NewestFirst(r)
            && multiset(r) <= multiset(matching)
            && (forall a, i | a in multiset(matching) - multiset(r) && 0 <= i < |r| ::
                  a.timestamp <= r[i].timestamp)
  {
    var matching := FilterAlerts(alerts, username, DateKey(date));
    var n := if |matching| < MaxAlertsReturned then |matching| else MaxAlertsReturned;
    NewestPrefix(matching, n);
    SortNewestFirst(matching)[..n]
  }

  /** The first `n` of a list sorted newest first are a newest-first selection of its newest alerts. */
  lemma NewestPrefix(s: seq<BandwidthAlert>, n: nat)
    requires n <= |s|
    ensures var r := SortNewestFirst(s)[..n];
            && |r| == n
            && NewestFirst(r)
            && multiset(r) <= multiset(s)
            && (forall a, i | a in multiset(s) - multiset(r) && 0 <= i < |r| :: a.timestamp <= r[i].timestamp)
  {
    var sorted := SortNewestFirst(s);
    PrefixKeepsNewest(sorted, n);
  }

  /** Every alert returned belongs to the requester and, if a date is given, to that date. */
  lemma UserAlertsMatchQuery(alerts: seq<BandwidthAlert>, username: string, date: Option<Date>)
    requires date.Some? ==> ValidDate(date.value)
    ensures var r := UserAlerts(alerts, username, date);
            forall i | 0 <= i < |r| :: r[i].username == username && (date.Some? ==> r[i].date == IsoFormat(date.value))
  {
    var r := UserAlerts(alerts, username, date);
    var matching := FilterAlerts(alerts, username, DateKey(date));
    forall i | 0 <= i < |r|
      ensures r[i].username == username && (date.Some? ==> r[i].date == IsoFormat(date.value))
    {
      assert r[i] in multiset(r);
      assert r[i] in multiset(matching);
      var k :| 0 <= k < |matching| && matching[k] == r[i];
      assert MatchesQuery(matching[k], username, DateKey(date));
    }
  }

  /**
   * `get_user_alerts` as written. The collection belongs to the synchronous
   * driver (its `find_one` and `insert_one` are called without `await`), so
   * the result of `find(...).sort(...).to_list(...)` is not awaitable: the
   * `await` raises, whatever the collection holds, and the catch-all answers
   * 500.
   */
  function GetUserAlertsAsWritten(alerts: seq<BandwidthAlert>, username: string, date: Option<Date>)
    : (r: Result<seq<BandwidthAlert>, HttpError>)
    ensures r.Err? && r.error.status == InternalServerError
  {
    Err(HttpError(InternalServerError, CursorNotAwaitable))
  }

  /**
   * The endpoint as written loses alerts the query selects: a user with one
   * alert gets a 500, where the intended query returns that alert.
   */
  lemma AlertQueryAsWrittenLosesAlerts(a: BandwidthAlert)
    ensures GetUserAlertsAsWritten([a], a.username, None) == Err(HttpError(InternalServerError, CursorNotAwaitable))
    ensures UserAlerts([a], a.username, None) == [a]
  {
    var r := UserAlerts([a], a.username, None);
    assert FilterAlerts([a], a.username, None) == [a] by {
      assert MatchesQuery(a, a.username, None);
      assert [a][1..] == [];
    }
    assert |r| == 1;
    assert r[0] in multiset(r);
    assert r[0] in multiset([a]);
    assert r == [r[0]];
  }
}
