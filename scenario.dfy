/**
 * An end-to-end run of `get_courses`, as the program computes it: one
 * enrolment with license `ABCPE42`, one schedule entry completed on
 * `2021-01-10 00:00:00` with no renewal date. The derived renewal date is
 * `2023-01-10 00:00:00`, its slice `2023-` is not an integer, and the run
 * raises instead of exporting a record with cycle `2021-2023`.
 */
module Scenario {
  import opened Wrappers
  import opened PyStr
  import opened Timestamps
  import opened Rows
  import opened License
  import opened Schedule
  import opened Derive
  import opened Export

  const Completion := "2021-01-10 00:00:00"

  const Enrolment := EnrollmentRow(EnrollmentWidth, Some("Doe, Jane"), Some("ABCPE42"), Some("C100"), IntHours(4), None)

  const Entry := ScheduleRow(ScheduleWidth, Some(1), Some("C100"), NoHours, Some(Completion), None,
                             Some("Ethics"), None, None)

  /** Two decimal digits, most significant first, and their value. */
  lemma TwoDigits(s: string, hi: char, lo: char)
    requires s == [hi, lo] && IsDigit(hi) && IsDigit(lo)
    ensures AllDigits(s) && DigitsValue(s) == (hi - '0') as int * 10 + (lo - '0') as int
  {
    DigitsValueAppend([], hi);
    assert [] + [hi] == [hi];
    DigitsValueAppend([hi], lo);
    assert [hi] + [lo] == s;
  }

  lemma Year2021(s: string)
    requires s == "2021"
    ensures AllDigits(s) && DigitsValue(s) == 2021
  {
    TwoDigits("20", '2', '0');
    DigitsValueAppend("20", '2');
    assert "20" + ['2'] == "202";
    DigitsValueAppend("202", '1');
    assert "202" + ['1'] == s;
  }

  /** A string made of digit runs and the five separators has timestamp shape. */
  lemma ShapeFromPieces(s: string)
    requires |s| == 19 && s[4] == '-' && s[7] == '-' && s[10] == ' ' && s[13] == ':' && s[16] == ':'
    requires AllDigits(s[0..4]) && AllDigits(s[5..7]) && AllDigits(s[8..10])
    requires AllDigits(s[11..13]) && AllDigits(s[14..16]) && AllDigits(s[17..19])
    ensures HasTimestampShape(s)
  {
    forall i | 0 <= i < 19 && !IsSeparatorAt(i)
      ensures IsDigit(s[i])
    {
      if i < 4 { assert s[0..4][i] == s[i]; }
      else if i < 7 { assert s[5..7][i - 5] == s[i]; }
      else if i < 10 { assert s[8..10][i - 8] == s[i]; }
      else if i < 13 { assert s[11..13][i - 11] == s[i]; }
      else if i < 16 { assert s[14..16][i - 14] == s[i]; }
      else { assert s[17..19][i - 17] == s[i]; }
    }
  }

  lemma CompletionParses(c: string)
    requires c == Completion
    ensures ParseTimestamp(c) == Some(DateTime(2021, 1, 10, 0, 0, 0))
  {
    assert c[0..4] == "2021" by {
      assert c[0] == '2' && c[1] == '0' && c[2] == '2' && c[3] == '1';
    }
    assert c[5..7] == "01" by {
      assert c[5] == '0' && c[6] == '1';
    }
    assert c[8..10] == "10" by {
      assert c[8] == '1' && c[9] == '0';
    }
    assert c[11..13] == "00" by {
      assert c[11] == '0' && c[12] == '0';
    }
    assert c[14..16] == "00" by {
      assert c[14] == '0' && c[15] == '0';
    }
    assert c[17..19] == "00" by {
      assert c[17] == '0' && c[18] == '0';
    }
    Year2021(c[0..4]);
    TwoDigits(c[5..7], '0', '1');
    TwoDigits(c[8..10], '1', '0');
    TwoDigits(c[11..13], '0', '0');
    TwoDigits(c[14..16], '0', '0');
    TwoDigits(c[17..19], '0', '0');
    ShapeFromPieces(c);
    assert Fields(c) == DateTime(2021, 1, 10, 0, 0, 0);
  }

  /** `generate` on the scenario's entry raises in the cycle computation. */
  lemma EntryRaises(license: Option<string>)
    ensures GenerateFor(license, Enrolment, Project(Entry)) == Err(CycleNotInteger)
  {
    CompletionParses(Completion);
    var r := ResolveRenewal(Some(Completion), None);
    assert r.Ok?;
    assert HasTimestampShape(r.value);
    CycleRejectsDashAtFive(r.value);
    assert OrHours(NoHours, IntHours(4)) == IntHours(4);
    assert OrText(Some(Completion), Some("C100")) == Some(Completion);
  }

  /** The lookup for `C100` finds the one schedule entry. */
  lemma LookupFindsEntry(t: Table<ScheduleRow>)
    requires t == Table([Entry], false)
    ensures Lookup(t, "C100") == LookupResult([Project(Entry)], false)
  {
    var rows := Select(t.rows, "C100");
    assert rows == [Entry];
    assert rows[1..] == [];
    assert ProjectUntilMalformed(rows[1..]) == LookupResult([], false);
    assert ProjectUntilMalformed(rows) == LookupResult([Project(Entry)], false);
  }

  /** The whole export raises `CycleNotInteger`, so no record is written. */
  lemma ExampleRun(db: Database)
    requires db == Database(Table([Enrolment], false), Table([Entry], false))
    ensures Export.CoursesResult(db, None, false) == Err(CycleNotInteger)
  {
    NormalizeExample();
    var license := Some("PE0000042");
    LookupFindsEntry(db.schedule);
    var infos := Lookup(db.schedule, "C100").infos;
    EntryRaises(license);
    assert GenerateAll(license, Enrolment, infos[..0]) == Ok([]);
    GenerateAllStepFails(license, Enrolment, infos, 0);
    assert RowRecords(db.schedule, false, Enrolment) == Err(CycleNotInteger);
    var rows := SelectEnrollment(db.enrollment.rows, None);
    assert ExportRows(db.schedule, false, rows[..0]) == Ok([]);
    ExportStepFails(db.schedule, false, rows, 0);
  }
}
