/**
 * Report records (backend/src/models/report.model.ts) and report settings,
 * and the two collections the report service and the report job update.
 * The report-setting schema file is not part of this model; its fields are
 * the ones the service and the job read and write.
 */
module ReportModel {
  import opened Wrappers
  import opened CivilTime

  datatype ReportStatus = SENT | PENDING | FAILED | NO_ACTIVITY

  /** A report document: whose it is, the period label, when it was sent and how it went. */
  datatype ReportRecord = ReportRecord(userId: nat, period: string, sentDate: DateTime, status: ReportStatus)

  /** A user's report setting. */
  datatype ReportSetting = ReportSetting(
    id: nat,
    userId: nat,
    frequency: string,
    isEnabled: bool,
    nextReportDate: Option<DateTime>,
    lastSentDate: Option<DateTime>)

  /** Its dates are calendar dates. */
  predicate SettingValid(s: ReportSetting) {
    (s.nextReportDate.Some? ==> Valid(s.nextReportDate.value))
    && (s.lastSentDate.Some? ==> Valid(s.lastSentDate.value))
  }

  /** The report-setting and report collections. */
  class ReportStore {
    var settings: seq<ReportSetting>
    var reports: seq<ReportRecord>
    /** Setting ids below this one are taken. */
    var nextSettingId: nat

    predicate Valid()
      reads this
    {
      forall j :: 0 <= j < |settings| ==> SettingValid(settings[j]) && settings[j].id < nextSettingId
    }

    constructor (initialSettings: seq<ReportSetting>, initialReports: seq<ReportRecord>, firstFreeId: nat)
      requires forall j :: 0 <= j < |initialSettings| ==>
                 SettingValid(initialSettings[j]) && initialSettings[j].id < firstFreeId
      ensures Valid()
      ensures settings == initialSettings && reports == initialReports && nextSettingId == firstFreeId
    {
      settings := initialSettings;
      reports := initialReports;
      nextSettingId := firstFreeId;
    }
  }
}
