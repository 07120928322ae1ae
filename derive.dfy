/**
 * `generate`: one output record from an enrolment and one schedule entry.
 * The renewal date is derived when missing, the cycle label is cut from the
 * renewal string, the name is split on its comma and the hours go through `int`.
 */
module Derive {
  import opened Wrappers
  import opened PyStr
  import opened Timestamps
  import opened Rows

  /** Python's `renewal_date[:5]`. */
  function FirstFive(s: string): (r: string)
    ensures |r| == if |s| < 5 then |s| else 5
    ensures r == s[..|r|]
  {
    if |s| < 5 then s else s[..5]
  }

  /**
   * main.py lines 67-71: a renewal date that is `None` or empty is the
   * completion date plus two years, written back in the same format; any
   * other renewal date is used as it is.
   */
  function ResolveRenewal(completion: Option<string>, renewal: Option<string>): (r: Result<string, Error>)
    ensures renewal.Some? && renewal.value != "" ==> r == Ok(renewal.value)
    ensures (renewal.None? || renewal.value == "") ==>
      (r.Ok? <==> completion.Some? && ParseTimestamp(completion.value).Some? &&
                  ParseTimestamp(completion.value).value.year + 2 <= MaxYear)
    ensures (renewal.None? || renewal.value == "") && r.Ok? ==>
      var from := ParseTimestamp(completion.value).value;
      var to := ParseTimestamp(r.value);
      to.Some? && to.value.year == from.year + 2 && to.value.month == from.month &&
      to.value.day == (if from.month == 2 && from.day == 29 then 28 else from.day) &&
      to.value.hour == from.hour && to.value.minute == from.minute && to.value.second == from.second
  {
    if renewal.None? || renewal.value == "" then
      match completion
      case None => Err(BadCompletionDate)
      case Some(c) =>
        match ParseTimestamp(c)
        case None => Err(BadCompletionDate)
        case Some(from) =>
          match AddTwoYears(from)
          case None => Err(RenewalYearOutOfRange)
          case Some(to) =>
            ParseFormat(to);
            Ok(FormatTimestamp(to))
    else Ok(renewal.value)
  }

  /**
   * main.py line 72: the first five characters of the renewal string are read
   * with `int`; the label is that value minus two, a `-`, then the five
   * characters themselves.
   */
  function Cycle(renewal: string): (r: Result<string, Error>)
    ensures r.Ok? <==> ParseInt(FirstFive(renewal)).Some?
    ensures r.Err? ==> r.error == CycleNotInteger
  {
    var slice := FirstFive(renewal);
    match ParseInt(slice)
    case None => Err(CycleNotInteger)
    case Some(year) => Ok(IntToString(year - 2) + "-" + slice)
  }

  /**
   * The label ends with the raw five-character slice after a `-`, and what
   * precedes that `-` is the canonical decimal of the slice's value minus two
   * (which `CanonicalDecimalUnique` shows is the one text `str()` writes).
   */
  lemma CycleShape(renewal: string)
    requires Cycle(renewal).Ok?
    ensures var slice := FirstFive(renewal); var c := Cycle(renewal).value;
      |c| > |slice| && c[|c| - |slice|..] == slice && c[|c| - |slice| - 1] == '-' &&
      IsCanonicalDecimal(c[..|c| - |slice| - 1]) &&
      ParseInt(c[..|c| - |slice| - 1]) == Some(ParseInt(slice).value - 2)
  {
    var slice := FirstFive(renewal);
    var year := CycleLabel(renewal);
    var prefix := IntToString(year - 2);
    LabelParts(prefix, slice);
    IntToStringRoundTrip(year - 2);
  }

  /** The value of the slice of a label that exists. */
  lemma CycleLabel(renewal: string) returns (year: int)
    requires Cycle(renewal).Ok?
    ensures ParseInt(FirstFive(renewal)) == Some(year)
    ensures Cycle(renewal).value == IntToString(year - 2) + "-" + FirstFive(renewal)
  {
    year := ParseInt(FirstFive(renewal)).value;
  }

  /** The pieces of `prefix + "-" + suffix`, read back from its end. */
  lemma LabelParts(prefix: string, suffix: string)
    ensures var c := prefix + "-" + suffix;
      |c| > |suffix| && c[|c| - |suffix|..] == suffix && c[|c| - |suffix| - 1] == '-' &&
      c[..|c| - |suffix| - 1] == prefix
  {
  }

  /**
   * With a date in the program's own `YYYY-mm-dd ...` format the slice ends
   * in `-`, which `int` rejects: the cycle cannot be computed.
   */
  lemma CycleRejectsDashAtFive(renewal: string)
    requires |renewal| >= 5 && renewal[4] == '-'
    ensures Cycle(renewal) == Err(CycleNotInteger)
  {
    ParseIntRejectsTrailing(FirstFive(renewal));
  }

  /**
   * main.py lines 73 and 76: the name is split on every comma, the unpack into
   * last and first name needs exactly two parts, each part is stripped, and
   * the result is the first name, a space, then the last name.
   */
  function SplitName(name: Option<string>): (r: Result<string, Error>)
    ensures name.None? ==> r == Err(NameMissing)
    ensures name.Some? && r.Err? ==> r.error == NameNotTwoParts
  {
    match name
    case None => Err(NameMissing)
    case Some(n) =>
      var parts := SplitOn(n, ',');
      if |parts| != 2 then Err(NameNotTwoParts)
      else Ok(Strip(parts[1]) + " " + Strip(parts[0]))
  }

  /**
   * A name splits exactly when it holds one comma; the result is the stripped
   * text after the comma, a space, and the stripped text before it.
   */
  lemma SplitNameSpec(n: string)
    ensures SplitName(Some(n)).Ok? <==> CountChar(n, ',') == 1
    ensures forall i :: 0 <= i < |n| && n[i] == ',' && SplitName(Some(n)).Ok? ==>
      SplitName(Some(n)).value == Strip(n[i + 1..]) + " " + Strip(n[..i])
  {
    forall i | 0 <= i < |n| && n[i] == ',' && SplitName(Some(n)).Ok?
      ensures SplitName(Some(n)).value == Strip(n[i + 1..]) + " " + Strip(n[..i])
    {
      SplitAtOnlyComma(n, i);
    }
  }

  /** A name with a single comma splits into the text before it and the text after it. */
  lemma SplitAtOnlyComma(n: string, i: nat)
    requires i < |n| && n[i] == ',' && CountChar(n, ',') == 1
    ensures SplitOn(n, ',') == [n[..i], n[i + 1..]]
  {
    var a, b := n[..i], n[i + 1..];
    assert n == a + [','] + b;
    CountCharConcat(a + [','], b, ',');
    CountCharConcat(a, [','], ',');
    assert ',' !in a && ',' !in b;
    SplitAtFirst(a, ',', b);
    SplitNoSeparator(b, ',');
  }

  /** `Smith, John` becomes `John Smith`. */
  lemma SplitNameExample()
    ensures SplitName(Some("Smith, John")) == Ok("John Smith")
  {
    var n := "Smith, John";
    var parts := SplitOn(n, ',');
    SmithJohnParts(n, "Smith", " John");
    StripSmithJohn(parts[0], parts[1]);
    JohnSmith(Strip(parts[1]) + " " + Strip(parts[0]));
  }

  /** The concatenation `SplitNameExample` ends with, as one literal. */
  lemma JohnSmith(s: string)
    requires s == "John" + " " + "Smith"
    ensures s == "John Smith"
  {
  }

  /** The two parts of `Smith, John`, for `SplitNameExample`. */
  lemma SmithJohnParts(n: string, a: string, b: string)
    requires n == "Smith, John" && a == "Smith" && b == " John"
    ensures SplitOn(n, ',') == [a, b]
  {
    assert n == a + [','] + b;
    assert ',' !in a && ',' !in b;
    SplitTwo(a, ',', b);
  }

  /** What `strip()` leaves of the two parts of `Smith, John`, for `SplitNameExample`. */
  lemma StripSmithJohn(a: string, b: string)
    requires a == "Smith" && b == " John"
    ensures Strip(a) == a && Strip(b) == "John"
  {
    assert !IsSpace(a[0]) && !IsSpace(a[|a| - 1]);
    var j := b[1..];
    assert j == "John";
    assert IsSpace(b[0]) && !IsSpace(j[0]);
    assert LStrip(j) == j;
    assert LStrip(b) == j;
    assert !IsSpace(j[|j| - 1]);
  }

  /** `Smith John` has no comma and fails the unpack. */
  lemma SplitNameNoComma()
    ensures SplitName(Some("Smith John")) == Err(NameNotTwoParts)
  {
    var m := "Smith John";
    assert ',' !in m;
  }

  /** Python's `int(hours)`; `None` where it raises. */
  function HoursValue(h: Hours): (r: Option<int>)
    ensures h.NoHours? ==> r.None?
    ensures h.IntHours? ==> r == Some(h.n)
    ensures h.TextHours? ==> r == ParseInt(h.text)
  {
    match h
    case NoHours => None
    case IntHours(n) => Some(n)
    case TextHours(t) => ParseInt(t)
  }

  /**
   * main.py lines 66-82. The steps run in the source's order, and the first
   * one that raises decides the error.
   */
  function Generate(license: Option<string>, name: Option<string>, title: Option<string>,
                    description: Option<string>, hours: Hours, completion: Option<string>,
                    courseType: Option<string>, renewal: Option<string>): (r: Result<Record, Error>)
    ensures r.Ok? ==>
      r.value.licenseeId == license && r.value.courseTitle == title &&
      r.value.courseDescription == description && r.value.completionDate == completion
    ensures r.Ok? ==> SplitName(name) == Ok(r.value.licenseeName)
    ensures r.Ok? ==> HoursValue(hours) == Some(r.value.courseHours)
    ensures r.Ok? ==> (ResolveRenewal(completion, renewal).Ok? &&
                       Cycle(ResolveRenewal(completion, renewal).value) == Ok(r.value.cycle))
    ensures (ResolveRenewal(completion, renewal).Ok? && Cycle(ResolveRenewal(completion, renewal).value).Ok? &&
             SplitName(name).Ok? && HoursValue(hours).Some?) ==> r.Ok?
    ensures ResolveRenewal(completion, renewal).Err? ==> r == Err(ResolveRenewal(completion, renewal).error)
    ensures (ResolveRenewal(completion, renewal).Ok? && Cycle(ResolveRenewal(completion, renewal).value).Err?) ==>
      r == Err(CycleNotInteger)
    ensures (ResolveRenewal(completion, renewal).Ok? && Cycle(ResolveRenewal(completion, renewal).value).Ok? &&
             SplitName(name).Err?) ==> r == Err(SplitName(name).error)
    ensures (ResolveRenewal(completion, renewal).Ok? && Cycle(ResolveRenewal(completion, renewal).value).Ok? &&
             SplitName(name).Ok? && HoursValue(hours).None?) ==> r == Err(HoursNotInteger)
  {
    var renewalDate :- ResolveRenewal(completion, renewal);
    var cycle :- Cycle(renewalDate);
    var fullName :- SplitName(name);
    var h :- HoursValue(hours).ToResult(HoursNotInteger);
    Ok(Record(license, fullName, title, description, h, completion, cycle))
  }

  /** A renewal date that is missing, empty, or has `-` at index 4 as `%Y-%m-%d` puts it. */
  predicate DateShapedOrMissing(renewal: Option<string>) {
    renewal.None? || renewal.value == "" || (|renewal.value| >= 5 && renewal.value[4] == '-')
  }

  /**
   * `generate` cannot succeed on such a renewal date: a derived renewal date is
   * written as `YYYY-mm-dd HH:MM:SS`, and every such slice `YYYY-` fails `int`.
   */
  lemma GenerateRejectsDateShapedRenewal(license: Option<string>, name: Option<string>, title: Option<string>,
                                         description: Option<string>, hours: Hours, completion: Option<string>,
                                         courseType: Option<string>, renewal: Option<string>)
    requires DateShapedOrMissing(renewal)
    ensures Generate(license, name, title, description, hours, completion, courseType, renewal).Err?
  {
    var resolved := ResolveRenewal(completion, renewal);
    if resolved.Ok? {
      ResolvedDateShaped(completion, renewal);
      CycleRejectsDashAtFive(resolved.value);
    }
  }

  /** A resolved renewal date keeps the `-` at index 4: given so, or written by `strftime`. */
  lemma ResolvedDateShaped(completion: Option<string>, renewal: Option<string>)
    requires DateShapedOrMissing(renewal) && ResolveRenewal(completion, renewal).Ok?
    ensures var r := ResolveRenewal(completion, renewal).value; |r| >= 5 && r[4] == '-'
  {
    if renewal.None? || renewal.value == "" {
      assert HasTimestampShape(ResolveRenewal(completion, renewal).value);
    }
  }
}
