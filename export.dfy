/**
 * `get_courses`: every enrolment row, in query order, has its license
 * normalised (or is skipped), its schedule looked up, and one record
 * generated per schedule entry, with the enrolment's own values as fallbacks.
 */
module Export {
  import opened Wrappers
  import opened PyStr
  import opened Rows
  import opened License
  import opened Schedule
  import opened Derive

  /** Python truthiness of a text value: `None` and `''` are false. */
  predicate TruthyText(v: Option<string>) {
    v.Some? && v.value != ""
  }

  /** Python truthiness of an hours value: NULL, `0` and `''` are false. */
  predicate TruthyHours(h: Hours) {
    match h
    case NoHours => false
    case IntHours(n) => n != 0
    case TextHours(t) => t != ""
  }

  /** Python's `a or b` on text values. */
  function OrText(a: Option<string>, b: Option<string>): (r: Option<string>)
    ensures TruthyText(a) ==> r == a
    ensures !TruthyText(a) ==> r == b
  {
    if TruthyText(a) then a else b
  }

  /** Python's `a or b` on hours values. */
  function OrHours(a: Hours, b: Hours): (r: Hours)
    ensures TruthyHours(a) ==> r == a
    ensures !TruthyHours(a) ==> r == b
  {
    if TruthyHours(a) then a else b
  }

  /**
   * The `generate` call of main.py lines 104-106: schedule hours, completion
   * and renewal dates, each falling back to the enrolment's `hours`,
   * `course` and `date4` when falsy.
   */
  function GenerateFor(license: Option<string>, row: EnrollmentRow, info: CourseInfo): (r: Result<Record, Error>)
    ensures r.Ok? ==> (r.value.licenseeId == license && r.value.courseTitle == info.title &&
                       r.value.courseDescription == info.description)
    ensures r.Ok? ==> SplitName(row.name) == Ok(r.value.licenseeName)
    ensures var completion := if TruthyText(info.completionDate) then info.completionDate else row.course;
      r.Ok? ==> r.value.completionDate == completion
    ensures var hours := if TruthyHours(info.hours) then info.hours else row.hours;
      r.Ok? ==> Some(r.value.courseHours) == HoursValue(hours)
    ensures var completion := if TruthyText(info.completionDate) then info.completionDate else row.course;
      var renewal := if TruthyText(info.renewalDate) then info.renewalDate else row.date4;
      var resolved := ResolveRenewal(completion, renewal);
      r.Ok? ==> resolved.Ok? && Cycle(resolved.value) == Ok(r.value.cycle)
    ensures var completion := if TruthyText(info.completionDate) then info.completionDate else row.course;
      var renewal := if TruthyText(info.renewalDate) then info.renewalDate else row.date4;
      var hours := if TruthyHours(info.hours) then info.hours else row.hours;
      var resolved := ResolveRenewal(completion, renewal);
      r.Ok? <==> resolved.Ok? && Cycle(resolved.value).Ok? && SplitName(row.name).Ok? && HoursValue(hours).Some?
  {
    Generate(license, row.name, info.title, info.description, OrHours(info.hours, row.hours),
             OrText(info.completionDate, row.course), info.courseType, OrText(info.renewalDate, row.date4))
  }

  /** The `generate` call on one schedule entry. */
  function EntryRecord(license: Option<string>, row: EnrollmentRow): CourseInfo -> Result<Record, Error> {
    info => GenerateFor(license, row, info)
  }

  /** The outcome of the `generate` call on one schedule entry, as a list of records. */
  function EntryStep(license: Option<string>, row: EnrollmentRow): CourseInfo -> Result<seq<Record>, Error> {
    info => AsList(GenerateFor(license, row, info))
  }

  /** The outcome of the `generate` call for each schedule entry, in order. */
  function EntryResults(license: Option<string>, row: EnrollmentRow, infos: seq<CourseInfo>): seq<Result<seq<Record>, Error>> {
    MapSeq(EntryStep(license, row), infos)
  }

  /** The inner loop of main.py lines 103-107: records for `infos`, in order, or the first error. */
  function GenerateAll(license: Option<string>, row: EnrollmentRow, infos: seq<CourseInfo>): Result<seq<Record>, Error> {
    Flatten(EntryResults(license, row, infos))
  }

  /** What one enrolment row contributes (main.py lines 94-107). */
  function RowRecords(schedule: Table<ScheduleRow>, demo: bool, row: EnrollmentRow): Result<seq<Record>, Error> {
    if row.width != EnrollmentWidth then Err(EnrollmentRowWidth)
    else
      match NormalizeLicense(row.license)
      case Skip => Ok([])
      case Keep(license) =>
        GenerateAll(license, row, Lookup(schedule, LookupKey(row.course, demo)).infos)
  }

  /** What each enrolment row contributes, as a function of the row. */
  function RowStep(schedule: Table<ScheduleRow>, demo: bool): EnrollmentRow -> Result<seq<Record>, Error> {
    row => RowRecords(schedule, demo, row)
  }

  /** The outcome of each enrolment row, in order. */
  function RowResults(schedule: Table<ScheduleRow>, demo: bool, rows: seq<EnrollmentRow>): seq<Result<seq<Record>, Error>> {
    MapSeq(RowStep(schedule, demo), rows)
  }

  /** The outer loop of main.py lines 93-107: the records of `rows`, in order, or the first error. */
  function ExportRows(schedule: Table<ScheduleRow>, demo: bool, rows: seq<EnrollmentRow>): Result<seq<Record>, Error> {
    Flatten(RowResults(schedule, demo, rows))
  }

  /** `SELECT * from COURSE`, filtered on `course = "<date> 00:00:00"` when a date is given. */
  function SelectEnrollment(rows: seq<EnrollmentRow>, date: Option<string>): (r: seq<EnrollmentRow>)
    ensures date.None? ==> r == rows
    ensures date.Some? ==> forall x :: x in r <==> x in rows && x.course == Some(date.value + " 00:00:00")
  {
    match date
    case None => rows
    case Some(d) => Where(rows, (x: EnrollmentRow) => x.course == Some(d + " 00:00:00"))
  }

  /** The value `get_courses(date)` returns, or the exception it raises. */
  function CoursesResult(db: Database, date: Option<string>, demo: bool): Result<seq<Record>, Error> {
    if db.enrollment.fails then Err(EnrollmentQueryFailed)
    else ExportRows(db.schedule, demo, SelectEnrollment(db.enrollment.rows, date))
  }

  /** One more schedule entry extends the records by that entry's record. */
  lemma GenerateAllStep(license: Option<string>, row: EnrollmentRow, infos: seq<CourseInfo>, j: nat,
                        done: seq<Record>, entry: Record)
    requires j < |infos| && GenerateAll(license, row, infos[..j]) == Ok(done)
    requires GenerateFor(license, row, infos[j]) == Ok(entry)
    ensures GenerateAll(license, row, infos[..j + 1]) == Ok(done + [entry])
  {
    FlattenMapStep(EntryStep(license, row), infos, j, done, [entry]);
  }

  /** A schedule entry that raises ends the row's records with its error. */
  lemma GenerateAllStepFails(license: Option<string>, row: EnrollmentRow, infos: seq<CourseInfo>, j: nat)
    requires j < |infos| && GenerateAll(license, row, infos[..j]).Ok?
    requires GenerateFor(license, row, infos[j]).Err?
    ensures GenerateAll(license, row, infos) == Err(GenerateFor(license, row, infos[j]).error)
  {
    FlattenMapStepFails(EntryStep(license, row), infos, j);
  }

  /** One more enrolment row extends the export by that row's records. */
  lemma ExportStep(schedule: Table<ScheduleRow>, demo: bool, rows: seq<EnrollmentRow>, i: nat,
                   done: seq<Record>, more: seq<Record>)
    requires i < |rows| && ExportRows(schedule, demo, rows[..i]) == Ok(done)
    requires RowRecords(schedule, demo, rows[i]) == Ok(more)
    ensures ExportRows(schedule, demo, rows[..i + 1]) == Ok(done + more)
  {
    FlattenMapStep(RowStep(schedule, demo), rows, i, done, more);
  }

  /** An enrolment row that raises ends the export with its error. */
  lemma ExportStepFails(schedule: Table<ScheduleRow>, demo: bool, rows: seq<EnrollmentRow>, i: nat)
    requires i < |rows| && ExportRows(schedule, demo, rows[..i]).Ok?
    requires RowRecords(schedule, demo, rows[i]).Err?
    ensures ExportRows(schedule, demo, rows) == Err(RowRecords(schedule, demo, rows[i]).error)
  {
    FlattenMapStepFails(RowStep(schedule, demo), rows, i);
  }

  /**
   * The inner loop of main.py lines 103-107: `generate` on each schedule
   * entry in turn, stopping at the first that raises.
   */
  method GenerateEntries(license: Option<string>, row: EnrollmentRow, infos: seq<CourseInfo>)
    returns (res: Result<seq<Record>, Error>)
    ensures res == GenerateAll(license, row, infos)
  {
    var done: seq<Record> := [];
    for j := 0 to |infos|
      invariant GenerateAll(license, row, infos[..j]) == Ok(done)
    {
      var entry := EntryRecord(license, row)(infos[j]);
      if entry.Err? {
        GenerateAllStepFails(license, row, infos, j);
        return Err(entry.error);
      }
      GenerateAllStep(license, row, infos, j, done, entry.value);
      done := done + [entry.value];
    }
    assert infos[..|infos|] == infos;
    return Ok(done);
  }

  /**
   * main.py lines 85-109. The result is `CoursesResult(db, date, demo)`: the records
   * in enrolment order, or the first exception raised.
   */
  method GetCourses(db: Database, date: Option<string>, demo: bool) returns (res: Result<seq<Record>, Error>)
    ensures res == CoursesResult(db, date, demo)
  {
    if db.enrollment.fails {
      return Err(EnrollmentQueryFailed);
    }
    var rows := SelectEnrollment(db.enrollment.rows, date);
    var ret: seq<Record> := [];
    for i := 0 to |rows|
      invariant ExportRows(db.schedule, demo, rows[..i]) == Ok(ret)
    {
      var r := rows[i];
      if r.width != EnrollmentWidth {
        ExportStepFails(db.schedule, demo, rows, i);
        return Err(EnrollmentRowWidth);
      }
      var verdict := NormalizeLicense(r.license);
      if verdict.Skip? {
        ExportStep(db.schedule, demo, rows, i, ret, []);
        assert ret + [] == ret;
        continue;
      }
      var infos, _ := GetCourseInfo(db.schedule, r.course, demo);
      var records := GenerateEntries(verdict.license, r, infos);
      assert RowRecords(db.schedule, demo, r) == records;
      if records.Err? {
        ExportStepFails(db.schedule, demo, rows, i);
        return Err(records.error);
      }
      ExportStep(db.schedule, demo, rows, i, ret, records.value);
      ret := ret + records.value;
    }
    assert rows[..|rows|] == rows;
    return Ok(ret);
  }

  /**
   * Enrolment order is kept: exporting `a + b` gives the records of `a`
   * followed by those of `b`, or the first error met.
   */
  lemma ExportConcat(schedule: Table<ScheduleRow>, demo: bool, a: seq<EnrollmentRow>, b: seq<EnrollmentRow>)
    ensures ExportRows(schedule, demo, a + b) ==
      match ExportRows(schedule, demo, a)
      case Err(e) => Err(e)
      case Ok(x) =>
        match ExportRows(schedule, demo, b)
        case Err(e) => Err(e)
        case Ok(y) => Ok(x + y)
  {
    MapSeqConcat(RowStep(schedule, demo), a, b);
    FlattenConcat(RowResults(schedule, demo, a), RowResults(schedule, demo, b));
  }

  /**
   * The export succeeds exactly when every enrolment row does; otherwise it
   * raises the error of the first row that raises.
   */
  lemma ExportRowsOutcome(schedule: Table<ScheduleRow>, demo: bool, rows: seq<EnrollmentRow>)
    ensures var r := ExportRows(schedule, demo, rows);
      (r.Ok? <==> forall i :: 0 <= i < |rows| ==> RowRecords(schedule, demo, rows[i]).Ok?) &&
      (r.Err? ==> exists i :: 0 <= i < |rows| && RowRecords(schedule, demo, rows[i]) == Err(r.error) &&
                              forall q :: 0 <= q < i ==> RowRecords(schedule, demo, rows[q]).Ok?)
  {
    var rs := RowResults(schedule, demo, rows);
    FlattenSpec(rs);
    assert forall i :: 0 <= i < |rows| ==> rs[i] == RowRecords(schedule, demo, rows[i]);
  }

  /**
   * A row that is processed yields exactly one record per schedule entry the
   * lookup returned, in the lookup's order, or the error of the first entry
   * whose record cannot be made.
   */
  lemma EntryRecords(license: Option<string>, row: EnrollmentRow, infos: seq<CourseInfo>)
    ensures var r := GenerateAll(license, row, infos);
      (r.Ok? <==> forall j :: 0 <= j < |infos| ==> GenerateFor(license, row, infos[j]).Ok?) &&
      (r.Ok? ==> |r.value| == |infos|) &&
      (r.Ok? ==> forall j :: 0 <= j < |infos| ==> GenerateFor(license, row, infos[j]) == Ok(r.value[j])) &&
      (r.Err? ==> exists j :: 0 <= j < |infos| && GenerateFor(license, row, infos[j]) == Err(r.error) &&
                              forall q :: 0 <= q < j ==> GenerateFor(license, row, infos[q]).Ok?)
  {
    FlattenSingletons(EntryStep(license, row), EntryRecord(license, row), infos);
  }

  /**
   * A present license with no `PE<digits>` match contributes no records and
   * none of its schedule entries are consulted: the outcome is the same for
   * every schedule table.
   */
  lemma SkippedLicense(schedule: Table<ScheduleRow>, demo: bool, row: EnrollmentRow)
    requires row.width == EnrollmentWidth && row.license.Some?
    requires forall p: nat, k: nat :: !RegexMatch(row.license.value, p, k)
    ensures RowRecords(schedule, demo, row) == Ok([])
  {
  }

  /** An absent license reaches `generate` as it is, and the row is still processed. */
  lemma AbsentLicense(schedule: Table<ScheduleRow>, demo: bool, row: EnrollmentRow)
    requires row.width == EnrollmentWidth && row.license.None?
    ensures RowRecords(schedule, demo, row) ==
      GenerateAll(None, row, Lookup(schedule, LookupKey(row.course, demo)).infos)
    ensures RowRecords(schedule, demo, row).Ok? ==>
      forall j :: 0 <= j < |RowRecords(schedule, demo, row).value| ==> RowRecords(schedule, demo, row).value[j].licenseeId.None?
  {
    EntryRecords(None, row, Lookup(schedule, LookupKey(row.course, demo)).infos);
  }

  /**
   * A row that is processed yields exactly one record per schedule entry the
   * lookup returned, in the lookup's order.
   */
  lemma OneRecordPerEntry(schedule: Table<ScheduleRow>, demo: bool, row: EnrollmentRow)
    requires row.width == EnrollmentWidth && NormalizeLicense(row.license).Keep?
    ensures var license := NormalizeLicense(row.license).license;
      var infos := Lookup(schedule, LookupKey(row.course, demo)).infos;
      RowRecords(schedule, demo, row).Ok? ==>
        |RowRecords(schedule, demo, row).value| == |infos| &&
        forall j :: 0 <= j < |infos| ==> GenerateFor(license, row, infos[j]) == Ok(RowRecords(schedule, demo, row).value[j])
  {
    EntryRecords(NormalizeLicense(row.license).license, row, Lookup(schedule, LookupKey(row.course, demo)).infos);
  }

  /** Every renewal date in the tables is missing, empty, or has `-` at index 4. */
  predicate RenewalDatesDateShaped(db: Database) {
    (forall x :: x in db.schedule.rows ==> DateShapedOrMissing(x.day4)) &&
    (forall e :: e in db.enrollment.rows ==> DateShapedOrMissing(e.date4))
  }

  /** The `or` fallback keeps renewal dates date-shaped. */
  lemma FallbackDateShaped(a: Option<string>, b: Option<string>)
    requires DateShapedOrMissing(a) && DateShapedOrMissing(b)
    ensures DateShapedOrMissing(OrText(a, b))
  {
  }

  /** A processed row whose lookup found anything raises when renewal dates are date-shaped. */
  lemma {:induction false} RowRecordsEmptyOrFail(db: Database, demo: bool, row: EnrollmentRow)
    requires RenewalDatesDateShaped(db) && row in db.enrollment.rows
    ensures RowRecords(db.schedule, demo, row).Ok? ==> RowRecords(db.schedule, demo, row).value == []
  {
    if row.width == EnrollmentWidth && NormalizeLicense(row.license).Keep? {
      var license := NormalizeLicense(row.license).license;
      var key := LookupKey(row.course, demo);
      var infos := Lookup(db.schedule, key).infos;
      LookupInOrder(db.schedule, key);
      var selected := Select(db.schedule.rows, key);
      EntryRecords(license, row, infos);
      if |infos| > 0 {
        var info := infos[0];
        assert selected[0] in selected;
        assert DateShapedOrMissing(info.renewalDate);
        FallbackDateShaped(info.renewalDate, row.date4);
        GenerateRejectsDateShapedRenewal(license, row.name, info.title, info.description,
          OrHours(info.hours, row.hours), OrText(info.completionDate, row.course), info.courseType,
          OrText(info.renewalDate, row.date4));
      }
    }
  }

  /**
   * As `generate` computes the cycle, a run over tables whose renewal dates
   * are all in the program's own date format (or missing, so derived) either
   * raises or exports no record at all.
   */
  lemma {:induction false} ExportEmptyOrFails(db: Database, date: Option<string>, demo: bool)
    requires RenewalDatesDateShaped(db)
    ensures CoursesResult(db, date, demo).Ok? ==> CoursesResult(db, date, demo).value == []
  {
    if !db.enrollment.fails {
      var rows := SelectEnrollment(db.enrollment.rows, date);
      assert forall e :: e in rows ==> e in db.enrollment.rows;
      ExportRowsEmptyOrFail(db, demo, rows);
    }
  }

  lemma {:induction false} ExportRowsEmptyOrFail(db: Database, demo: bool, rows: seq<EnrollmentRow>)
    requires RenewalDatesDateShaped(db) && forall e :: e in rows ==> e in db.enrollment.rows
    ensures ExportRows(db.schedule, demo, rows).Ok? ==> ExportRows(db.schedule, demo, rows).value == []
  {
    var rs := RowResults(db.schedule, demo, rows);
    FlattenSpec(rs);
    if ExportRows(db.schedule, demo, rows).Ok? {
      forall j | 0 <= j < |rs|
        ensures rs[j].value == []
      {
        assert rows[j] in rows;
        RowRecordsEmptyOrFail(db, demo, rows[j]);
      }
      ValuesAllEmpty(rs);
    }
  }
}
