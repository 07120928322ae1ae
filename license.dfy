/**
 * The license normaliser: `re.match(r'.*PE([0-9]+)', license)`,
 * then `'PE' + group(1).zfill(7)`; no match skips the enrolment row.
 */
module License {
  import opened Wrappers
  import opened PyStr

  /** Position where the first line ends: `.` matches every character except a newline. */
  function LineEnd(s: string): (n: nat)
    ensures n <= |s| && '\n' !in s[..n]
    ensures n < |s| ==> s[n] == '\n'
  {
    if s == [] || s[0] == '\n' then 0
    else
      var n := 1 + LineEnd(s[1..]);
      assert s[..n] == [s[0]] + s[1..][..n - 1];
      n
  }

  /** `PE` followed by a digit starts at `p`. */
  predicate PeDigitAt(s: string, p: nat) {
    p + 2 < |s| && s[p] == 'P' && s[p + 1] == 'E' && IsDigit(s[p + 2])
  }

  /**
   * One way the pattern can match from the start of `s`: `.*` takes `s[..p]`
   * (no newline), `PE` sits at `p`, and the group `[0-9]+` is `s[p + 2..k]`.
   */
  ghost predicate RegexMatch(s: string, p: nat, k: nat) {
    p <= LineEnd(s) && PeDigitAt(s, p) && p + 2 < k <= |s| &&
    forall i :: p + 2 <= i < k ==> IsDigit(s[i])
  }

  /** The span of a match: `PE` at `pe`, the group ending before `end`. */
  datatype Match = Match(pe: nat, end: nat)

  /** The last `PE`-and-digit starting below `hi`. */
  function LastPeDigit(s: string, hi: nat): (r: Option<nat>)
    requires hi <= |s|
    ensures r.Some? ==> r.value < hi && PeDigitAt(s, r.value)
    ensures r.Some? ==> forall q :: r.value < q < hi ==> !PeDigitAt(s, q)
    ensures r.None? ==> forall q :: 0 <= q < hi ==> !PeDigitAt(s, q)
  {
    if hi == 0 then None
    else if PeDigitAt(s, hi - 1) then Some(hi - 1)
    else LastPeDigit(s, hi - 1)
  }

  /** End of the run of digits starting at `i`. */
  function DigitRunEnd(s: string, i: nat): (k: nat)
    requires i <= |s|
    ensures i <= k <= |s| && (forall j :: i <= j < k ==> IsDigit(s[j]))
    ensures k < |s| ==> !IsDigit(s[k])
    decreases |s| - i
  {
    if i < |s| && IsDigit(s[i]) then DigitRunEnd(s, i + 1) else i
  }

  /**
   * `re.match(r'.*PE([0-9]+)', s)`. The backtracking engine returns the match
   * whose greedy `.*` is longest and, for that, whose greedy group is longest.
   */
  function MatchLicense(s: string): (m: Option<Match>)
    ensures m.None? <==> forall p: nat, k: nat :: !RegexMatch(s, p, k)
    ensures m.Some? ==> RegexMatch(s, m.value.pe, m.value.end)
    ensures m.Some? ==> forall p: nat, k: nat :: RegexMatch(s, p, k) ==>
      p < m.value.pe || (p == m.value.pe && k <= m.value.end)
  {
    var hi := LineEnd(s);
    match LastPeDigit(s, hi)
    case None =>
      assert !PeDigitAt(s, hi);
      None
    case Some(p) =>
      assert !PeDigitAt(s, hi);
      var k := DigitRunEnd(s, p + 2);
      assert RegexMatch(s, p, k);
      Some(Match(p, k))
  }

  /** What the normaliser decides for an enrolment row's license. */
  datatype Verdict = Skip | Keep(license: Option<string>)

  /** `id` is `PE`, then zeros, then `digits`, at least seven characters after `PE`. */
  predicate IsCanonical(id: string, digits: string) {
    |id| == 2 + (if |digits| >= 7 then |digits| else 7) &&
    id[..2] == "PE" && id[|id| - |digits|..] == digits &&
    forall i :: 2 <= i < |id| - |digits| ==> id[i] == '0'
  }

  /** The digit group of a license the pattern matches. */
  function Group(s: string): string
    requires MatchLicense(s).Some?
  {
    var m := MatchLicense(s).value;
    s[m.pe + 2..m.end]
  }

  /** main.py lines 95-101: an absent license passes, a non-matching one skips the row. */
  function NormalizeLicense(license: Option<string>): (v: Verdict)
    ensures license.None? ==> v == Keep(None)
    ensures license.Some? ==> (v.Skip? <==> forall p: nat, k: nat :: !RegexMatch(license.value, p, k))
    ensures license.Some? && v.Keep? ==>
      v.license.Some? && IsCanonical(v.license.value, Group(license.value)) &&
      AllDigits(Group(license.value)) && Group(license.value) != []
  {
    match license
    case None => Keep(None)
    case Some(s) =>
      match MatchLicense(s)
      case None => Skip
      case Some(_) =>
        GroupDigits(s);
        PadLicense(Group(s));
        Keep(Some("PE" + ZFill(Group(s), 7)))
  }

  /** The group of a match is a nonempty run of digits. */
  lemma GroupDigits(s: string)
    requires MatchLicense(s).Some?
    ensures AllDigits(Group(s)) && Group(s) != []
  {
    var m := MatchLicense(s).value;
    var digits := Group(s);
    assert RegexMatch(s, m.pe, m.end);
    assert forall i :: 0 <= i < |digits| ==> digits[i] == s[m.pe + 2 + i];
  }

  /** `PE` followed by a digit group padded to seven is the canonical form of that group. */
  lemma PadLicense(digits: string)
    requires AllDigits(digits) && digits != []
    ensures IsCanonical("PE" + ZFill(digits, 7), digits)
  {
    var z := ZFill(digits, 7);
    var id := "PE" + z;
    assert digits[0] != '+' && digits[0] != '-';
    assert id[|id| - |digits|..] == z[|z| - |digits|..];
    assert id[..2] == "PE";
    assert forall i :: 2 <= i < |id| - |digits| ==> id[i] == z[i - 2];
  }

  /** A license with text before `PE` and a short number: `ABCPE42` becomes `PE0000042`. */
  lemma NormalizeExample()
    ensures NormalizeLicense(Some("ABCPE42")) == Keep(Some("PE0000042"))
  {
    var s := "ABCPE42";
    assert LineEnd(s) == 7 by {
      assert LineEnd(s[7..]) == 0;
      assert s[6..][1..] == s[7..];
      assert s[5..][1..] == s[6..];
      assert s[4..][1..] == s[5..];
      assert s[3..][1..] == s[4..];
      assert s[2..][1..] == s[3..];
      assert s[1..][1..] == s[2..];
    }
    assert !PeDigitAt(s, 6) && !PeDigitAt(s, 5) && !PeDigitAt(s, 4) && PeDigitAt(s, 3);
    assert LastPeDigit(s, 7) == Some(3);
    assert DigitRunEnd(s, 5) == 7;
    assert s[5..7] == "42";
    assert Zeros(5) == "00000";
    assert ZFill("42", 7) == "0000042";
    assert MatchLicense(s) == Some(Match(3, 7));
    assert "PE" + ZFill(s[5..7], 7) == "PE0000042";
  }
}
