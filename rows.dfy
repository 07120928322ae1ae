/**
 * The rows the two queries return (only the positions the pipeline reads),
 * the record it emits, and the errors that abort a run.
 */
module Rows {
  import opened Wrappers

  /** A database value in an hours column: NULL, a number, or text. */
  datatype Hours = NoHours | IntHours(n: int) | TextHours(text: string)

  /** Number of columns a `COURSE` row must unpack into. */
  const EnrollmentWidth := 31

  /** A `COURSE` row: `width` columns, of which positions 1, 7, 9, 10 and 22 are used. */
  datatype EnrollmentRow = EnrollmentRow(
    width: nat,
    name: Option<string>,
    license: Option<string>,
    course: Option<string>,
    hours: Hours,
    date4: Option<string>)

  /** Number of columns a `COURSESKED` row must unpack into. */
  const ScheduleWidth := 14

  /** A `COURSESKED` row: `width` columns, of which the positions below are used. */
  datatype ScheduleRow = ScheduleRow(
    width: nat,
    courseId: Option<int>,
    course: Option<string>,
    hours: Hours,
    day1: Option<string>,
    day4: Option<string>,
    title: Option<string>,
    comments: Option<string>,
    instructor: Option<string>)

  /** One entry of the list `get_course_info` returns. */
  datatype CourseInfo = CourseInfo(
    id: Option<int>,
    course: Option<string>,
    title: Option<string>,
    description: Option<string>,
    courseType: Option<string>,
    hours: Hours,
    completionDate: Option<string>,
    renewalDate: Option<string>)

  /** The dictionary `generate` returns, one per exported course completion. */
  datatype Record = Record(
    licenseeId: Option<string>,
    licenseeName: string,
    courseTitle: Option<string>,
    courseDescription: Option<string>,
    courseHours: int,
    completionDate: Option<string>,
    cycle: string)

  /** The exceptions that escape `get_courses` and end the run without output. */
  datatype Error =
    | EnrollmentQueryFailed   // the `COURSE` query raised
    | EnrollmentRowWidth      // a `COURSE` row did not unpack into 31 names
    | BadCompletionDate       // `strptime` on a missing or malformed completion date
    | RenewalYearOutOfRange   // completion year + 2 is past 9999
    | CycleNotInteger         // `int(renewal_date[:5])` raised
    | NameMissing             // the name is NULL, so it has no `split`
    | NameNotTwoParts         // the name does not split into exactly two parts
    | HoursNotInteger         // `int(hours)` raised

  /** A table as the query layer presents it: its rows, or a query that raises. */
  datatype Table<R> = Table(rows: seq<R>, fails: bool)

  datatype Database = Database(enrollment: Table<EnrollmentRow>, schedule: Table<ScheduleRow>)

  /** A `WHERE` clause: the rows that satisfy `keep`, in table order. */
  function Where<R(==,!new)>(rows: seq<R>, keep: R -> bool): (r: seq<R>)
    ensures |r| <= |rows|
    ensures forall i :: 0 <= i < |r| ==> keep(r[i])
    ensures forall x :: x in r <==> x in rows && keep(x)
  {
    if rows == [] then []
    else
      var rest := Where(rows[1..], keep);
      assert forall x :: x in rows <==> x == rows[0] || x in rows[1..];
      if keep(rows[0]) then [rows[0]] + rest else rest
  }

  /** Filtering keeps table order: the filter of a concatenation is the concatenation of the filters. */
  lemma {:induction false} WhereConcat<R(!new)>(a: seq<R>, b: seq<R>, keep: R -> bool)
    ensures Where(a + b, keep) == Where(a, keep) + Where(b, keep)
  {
    if a == [] {
      assert a + b == b;
    } else {
      assert (a + b)[1..] == a[1..] + b;
      WhereConcat(a[1..], b, keep);
    }
  }

  /** `f` applied to each element of `s`, in order. */
  function MapSeq<A, B>(f: A -> B, s: seq<A>): (r: seq<B>)
    ensures |r| == |s| && forall j :: 0 <= j < |s| ==> r[j] == f(s[j])
  {
    seq(|s|, j requires 0 <= j < |s| => f(s[j]))
  }

  lemma MapSeqPrefix<A, B>(f: A -> B, s: seq<A>, k: nat)
    requires k <= |s|
    ensures MapSeq(f, s)[..k] == MapSeq(f, s[..k])
  {
  }

  lemma MapSeqConcat<A, B>(f: A -> B, a: seq<A>, b: seq<A>)
    ensures MapSeq(f, a + b) == MapSeq(f, a) + MapSeq(f, b)
  {
  }

  /** A single result as a list of results: one value, or the error. */
  function AsList<T>(r: Result<T, Error>): (l: Result<seq<T>, Error>)
    ensures l.Ok? <==> r.Ok?
    ensures l.Ok? ==> l.value == [r.value]
    ensures l.Err? ==> l.error == r.error
  {
    if r.Ok? then Ok([r.value]) else Err(r.error)
  }

  /**
   * Running steps in order and stopping at the first that raises: the first
   * error in `rs`, or the values of all of them, concatenated in order.
   */
  function Flatten<T>(rs: seq<Result<seq<T>, Error>>): Result<seq<T>, Error> {
    if rs == [] then Ok([])
    else
      var done :- Flatten(rs[..|rs| - 1]);
      var more :- rs[|rs| - 1];
      Ok(done + more)
  }

  /** The values of all steps, concatenated in order. */
  function Values<T>(rs: seq<Result<seq<T>, Error>>): seq<T>
    requires forall j :: 0 <= j < |rs| ==> rs[j].Ok?
  {
    if rs == [] then [] else Values(rs[..|rs| - 1]) + rs[|rs| - 1].value
  }

  /**
   * The run succeeds exactly when every step does, with all their values in
   * order; otherwise its error is that of the first step that raises.
   */
  lemma {:induction false} FlattenSpec<T>(rs: seq<Result<seq<T>, Error>>)
    ensures Flatten(rs).Ok? <==> forall j :: 0 <= j < |rs| ==> rs[j].Ok?
    ensures Flatten(rs).Ok? ==> Flatten(rs).value == Values(rs)
    ensures Flatten(rs).Err? ==> exists j :: 0 <= j < |rs| && rs[j] == Err(Flatten(rs).error) &&
                                            forall q :: 0 <= q < j ==> rs[q].Ok?
  {
    if rs != [] {
      var n := |rs| - 1;
      FlattenSpec(rs[..n]);
      assert forall j :: 0 <= j < n ==> rs[..n][j] == rs[j];
    }
  }

  /** Running `a + b` is running `a`, then `b`. */
  lemma {:induction false} FlattenConcat<T>(a: seq<Result<seq<T>, Error>>, b: seq<Result<seq<T>, Error>>)
    ensures Flatten(a + b) ==
      match Flatten(a)
      case Err(e) => Err(e)
      case Ok(x) =>
        match Flatten(b)
        case Err(e) => Err(e)
        case Ok(y) => Ok(x + y)
  {
    if b == [] {
      assert a + b == a;
      if Flatten(a).Ok? {
        assert Flatten(a).value + [] == Flatten(a).value;
      }
    } else {
      var n := |b| - 1;
      assert (a + b)[..|a + b| - 1] == a + b[..n];
      assert (a + b)[|a + b| - 1] == b[n];
      FlattenConcat(a, b[..n]);
      match Flatten(a)
      case Err(e) =>
      case Ok(x) =>
        match Flatten(b[..n])
        case Err(e) =>
        case Ok(y) =>
          match b[n]
          case Err(e) =>
          case Ok(z) =>
            assert x + y + z == x + (y + z);
    }
  }

  /** Once a prefix of the steps raises, the run raises that error. */
  lemma {:induction false} FlattenErrorPersists<T>(rs: seq<Result<seq<T>, Error>>, i: nat)
    requires i <= |rs| && Flatten(rs[..i]).Err?
    ensures Flatten(rs) == Flatten(rs[..i])
    decreases |rs| - i
  {
    if i < |rs| {
      assert rs[..i + 1][..i] == rs[..i];
      FlattenErrorPersists(rs, i + 1);
    } else {
      assert rs[..i] == rs;
    }
  }

  /** When every step yields exactly one value, the run's values are those, one per step. */
  lemma {:induction false} ValuesOfSingletons<T>(rs: seq<Result<seq<T>, Error>>)
    requires forall j :: 0 <= j < |rs| ==> rs[j].Ok? && |rs[j].value| == 1
    ensures |Values(rs)| == |rs| && forall j :: 0 <= j < |rs| ==> rs[j].value == [Values(rs)[j]]
  {
    if rs != [] {
      var n := |rs| - 1;
      assert forall j :: 0 <= j < n ==> rs[..n][j] == rs[j];
      ValuesOfSingletons(rs[..n]);
    }
  }

  /** When every step yields no value, the run yields none. */
  lemma {:induction false} ValuesAllEmpty<T>(rs: seq<Result<seq<T>, Error>>)
    requires forall j :: 0 <= j < |rs| ==> rs[j].Ok? && rs[j].value == []
    ensures Values(rs) == []
  {
    if rs != [] {
      var n := |rs| - 1;
      assert forall j :: 0 <= j < n ==> rs[..n][j] == rs[j];
      ValuesAllEmpty(rs[..n]);
    }
  }

  /** One more step that succeeds appends its values. */
  lemma FlattenMapStep<A, T>(f: A -> Result<seq<T>, Error>, s: seq<A>, j: nat, done: seq<T>, more: seq<T>)
    requires j < |s| && Flatten(MapSeq(f, s[..j])) == Ok(done) && f(s[j]) == Ok(more)
    ensures Flatten(MapSeq(f, s[..j + 1])) == Ok(done + more)
  {
    var rs := MapSeq(f, s[..j + 1]);
    assert s[..j + 1][..j] == s[..j];
    MapSeqPrefix(f, s[..j + 1], j);
    assert rs[j] == Ok(more);
  }

  /** One more step that raises ends the run with its error, whatever follows. */
  lemma FlattenMapStepFails<A, T>(f: A -> Result<seq<T>, Error>, s: seq<A>, j: nat)
    requires j < |s| && Flatten(MapSeq(f, s[..j])).Ok? && f(s[j]).Err?
    ensures Flatten(MapSeq(f, s)) == Err(f(s[j]).error)
  {
    var rs := MapSeq(f, s);
    MapSeqPrefix(f, s, j);
    MapSeqPrefix(f, s, j + 1);
    assert rs[..j + 1][..j] == rs[..j];
    FlattenErrorPersists(rs, j + 1);
  }

  /**
   * A run whose every step yields at most one value: it succeeds exactly when
   * every step does, with one value per step in order, and otherwise raises
   * the error of the first step that raises.
   */
  lemma FlattenSingletons<A, T>(f: A -> Result<seq<T>, Error>, g: A -> Result<T, Error>, s: seq<A>)
    requires forall j :: 0 <= j < |s| ==> f(s[j]) == AsList(g(s[j]))
    ensures var r := Flatten(MapSeq(f, s));
      (r.Ok? <==> forall j :: 0 <= j < |s| ==> g(s[j]).Ok?) &&
      (r.Ok? ==> |r.value| == |s| && forall j :: 0 <= j < |s| ==> g(s[j]) == Ok(r.value[j])) &&
      (r.Err? ==> exists j :: 0 <= j < |s| && g(s[j]) == Err(r.error) &&
                              forall q :: 0 <= q < j ==> g(s[q]).Ok?)
  {
    var rs := MapSeq(f, s);
    FlattenSpec(rs);
    if Flatten(rs).Ok? {
      ValuesOfSingletons(rs);
    }
  }
}
