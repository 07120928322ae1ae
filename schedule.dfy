/**
 * `get_course_info`: the `COURSESKED` rows whose `course` equals the key,
 * projected to the fields `generate` needs. A raised exception is caught,
 * and the entries appended before it are returned.
 */
module Schedule {
  import opened Wrappers
  import opened Rows

  /** The key every lookup uses in demo mode. */
  const DemoKey := "2005-07-26 00:00:00"

  /** The key as an f-string renders it: a NULL course becomes the text `None`. */
  function KeyText(date: Option<string>): string {
    match date
    case None => "None"
    case Some(d) => d
  }

  /** The key a lookup for `date` filters on. */
  function LookupKey(date: Option<string>, demo: bool): (key: string)
    ensures demo ==> key == DemoKey
    ensures !demo && date.Some? ==> key == date.value
    ensures !demo && date.None? ==> key == "None"
  {
    if demo then DemoKey else KeyText(date)
  }

  /** `SELECT * from COURSESKED WHERE course = key`, in table order. */
  function Select(rows: seq<ScheduleRow>, key: string): (r: seq<ScheduleRow>)
    ensures forall x :: x in r <==> x in rows && x.course == Some(key)
  {
    Where(rows, (x: ScheduleRow) => x.course == Some(key))
  }

  /** The dictionary built from one unpacked row (main.py lines 51-60). */
  function Project(r: ScheduleRow): (info: CourseInfo)
    ensures info.title == r.title && info.description == r.comments && info.courseType == r.instructor
    ensures info.hours == r.hours && info.completionDate == r.day1 && info.renewalDate == r.day4
    ensures info.id == r.courseId && info.course == r.course
  {
    CourseInfo(r.courseId, r.course, r.title, r.comments, r.instructor, r.hours, r.day1, r.day4)
  }

  /** The entries collected, and whether an exception cut the lookup short. */
  datatype LookupResult = LookupResult(infos: seq<CourseInfo>, failed: bool)

  /**
   * The loop of main.py lines 49-60 over fetched rows: it projects rows until
   * one fails to unpack into 14 names.
   */
  function ProjectUntilMalformed(rows: seq<ScheduleRow>): LookupResult {
    if rows == [] then LookupResult([], false)
    else if rows[0].width != ScheduleWidth then LookupResult([], true)
    else
      var rest := ProjectUntilMalformed(rows[1..]);
      LookupResult([Project(rows[0])] + rest.infos, rest.failed)
  }

  /**
   * The entries are the projections of the rows before the first one that
   * does not unpack; `failed` holds exactly when there is such a row.
   */
  lemma {:induction false} ProjectUntilMalformedSpec(rows: seq<ScheduleRow>)
    ensures var r := ProjectUntilMalformed(rows);
      |r.infos| <= |rows| &&
      (forall i :: 0 <= i < |r.infos| ==> rows[i].width == ScheduleWidth && r.infos[i] == Project(rows[i])) &&
      (r.failed <==> |r.infos| < |rows|) &&
      (r.failed ==> rows[|r.infos|].width != ScheduleWidth)
  {
    if rows != [] && rows[0].width == ScheduleWidth {
      ProjectUntilMalformedSpec(rows[1..]);
    }
  }

  /** What a lookup on `key` returns: nothing when the query raises. */
  function Lookup(table: Table<ScheduleRow>, key: string): LookupResult {
    if table.fails then LookupResult([], true)
    else ProjectUntilMalformed(Select(table.rows, key))
  }

  /**
   * main.py lines 40-63. `failed` tells a lookup cut short by an exception
   * from one that found no more rows; the program itself only uses `infos`.
   */
  method GetCourseInfo(table: Table<ScheduleRow>, date: Option<string>, demo: bool)
    returns (infos: seq<CourseInfo>, failed: bool)
    ensures LookupResult(infos, failed) == Lookup(table, LookupKey(date, demo))
    ensures demo ==> LookupResult(infos, failed) == Lookup(table, DemoKey)
  {
    var key := KeyText(date);
    if demo {
      key := DemoKey;
    }
    infos, failed := [], false;
    if table.fails {
      failed := true;
      return;
    }
    var rows := Select(table.rows, key);
    ghost var whole := ProjectUntilMalformed(rows);
    for i := 0 to |rows|
      invariant whole.infos == infos + ProjectUntilMalformed(rows[i..]).infos
      invariant whole.failed == ProjectUntilMalformed(rows[i..]).failed
    {
      var r := rows[i];
      ghost var next := ProjectUntilMalformed(rows[i + 1..]);
      assert rows[i..][0] == r && rows[i..][1..] == rows[i + 1..];
      if r.width != ScheduleWidth {
        failed := true;
        return;
      }
      infos := infos + [Project(r)];
      assert whole.infos == infos + next.infos;
    }
    assert rows[|rows|..] == [];
  }

  /** A lookup returns, in order, the projections of a prefix of the matching rows. */
  lemma LookupInOrder(table: Table<ScheduleRow>, key: string)
    ensures var r := Lookup(table, key); var rows := Select(table.rows, key);
      |r.infos| <= |rows| &&
      forall i :: 0 <= i < |r.infos| ==> rows[i].course == Some(key) && r.infos[i] == Project(rows[i])
  {
    var rows := Select(table.rows, key);
    assert forall i :: 0 <= i < |rows| ==> rows[i] in rows;
    ProjectUntilMalformedSpec(rows);
  }

  /**
   * Without an exception every matching row is returned. With one the prefix
   * before the failing row is: empty when the query raises, the first `k`
   * entries when row `k` does not unpack.
   */
  lemma LookupComplete(table: Table<ScheduleRow>, key: string)
    ensures var r := Lookup(table, key); var rows := Select(table.rows, key);
      (!r.failed ==> |r.infos| == |rows|) &&
      (r.failed <==> table.fails || exists i :: 0 <= i < |rows| && rows[i].width != ScheduleWidth) &&
      (table.fails ==> r.infos == []) &&
      (r.failed && !table.fails ==> |r.infos| < |rows| && rows[|r.infos|].width != ScheduleWidth)
  {
    ProjectUntilMalformedSpec(Select(table.rows, key));
  }
}
