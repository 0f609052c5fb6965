/** Worked examples of the filename parser: the fragments the script's own
    comments list, fragments whose first match is out of range, and the
    "at most one separator" rule. */
module PathTimeExamples {
  import opened Base
  import opened DateTimes
  import opened PathTime

  function Digit(c: char): int {
    c as int - '0' as int
  }

  lemma TwoDigits(s: string)
    requires |s| == 2 && AllDigits(s)
    ensures DecimalValue(s) == 10 * Digit(s[0]) + Digit(s[1])
  {
    assert s[..1][..0] == [];
  }

  lemma FourDigits(s: string)
    requires |s| == 4 && AllDigits(s)
    ensures DecimalValue(s) == 1000 * Digit(s[0]) + 100 * Digit(s[1]) + 10 * Digit(s[2]) + Digit(s[3])
  {
    assert s[..1][..0] == [];
    assert DecimalValue(s[..1]) == Digit(s[0]);
    assert s[..2][..1] == s[..1];
    assert DecimalValue(s[..2]) == 10 * Digit(s[0]) + Digit(s[1]);
    assert s[..3][..2] == s[..2];
    assert DecimalValue(s[..3]) == 100 * Digit(s[0]) + 10 * Digit(s[1]) + Digit(s[2]);
  }

  /** The width of the q-th digit group of the pattern. */
  function Width(q: nat): nat {
    if q == 0 then 4 else 2
  }

  lemma PatternLayout(q: nat)
    requires q < 6
    ensures 2 * q < |Pattern| && Pattern[2 * q] == Digits(Width(q))
    ensures q < 5 ==> Pattern[2 * q + 1] == OptNonDigit
  {
  }

  /** The run of w digits g stands in s at position i. */
  predicate GroupAt(s: string, i: nat, w: nat, g: string) {
    |g| == w && AllDigits(g) && i + w <= |s| && s[i..i + w] == g
  }

  /** The group ending at `end` is followed directly by the next group at
      `next`, or by one non-digit first. */
  predicate Joined(s: string, end: nat, next: nat) {
    next == end || (next == end + 1 && end < |s| && !IsDigit(s[end]))
  }

  /** The six groups g lie in s at the starts p: each group is the run of
      digits the pattern wants there, and the next group starts right after
      it or one non-digit later. */
  predicate Layout(s: string, g: seq<string>, p: seq<nat>) {
    && |g| == 6 && |p| == 6
    && (forall q :: 0 <= q < 6 ==> GroupAt(s, p[q], Width(q), g[q]))
    && (forall q :: 0 <= q < 5 ==> Joined(s, p[q] + Width(q), p[q + 1]))
  }

  /** Two digits, given character by character, at position i. */
  predicate TwoDigitsAt(s: string, i: nat, g: string) {
    && |g| == 2 && i + 2 <= |s|
    && s[i] == g[0] && s[i + 1] == g[1]
    && IsDigit(g[0]) && IsDigit(g[1])
  }

  /** Four digits, given character by character, at position i. */
  predicate FourDigitsAt(s: string, i: nat, g: string) {
    && |g| == 4 && i + 4 <= |s|
    && s[i] == g[0] && s[i + 1] == g[1] && s[i + 2] == g[2] && s[i + 3] == g[3]
    && IsDigit(g[0]) && IsDigit(g[1]) && IsDigit(g[2]) && IsDigit(g[3])
  }

  lemma TwoDigitsGroup(s: string, i: nat, g: string)
    requires TwoDigitsAt(s, i, g)
    ensures GroupAt(s, i, 2, g)
  {
    assert s[i..i + 2] == [s[i], s[i + 1]];
  }

  lemma FourDigitsGroup(s: string, i: nat, g: string)
    requires FourDigitsAt(s, i, g)
    ensures GroupAt(s, i, 4, g)
  {
    assert s[i..i + 4] == [s[i], s[i + 1], s[i + 2], s[i + 3]];
  }

  /** The layout of six explicitly given groups. */
  lemma MakeLayout(s: string, g0: string, g1: string, g2: string, g3: string, g4: string, g5: string,
                   p0: nat, p1: nat, p2: nat, p3: nat, p4: nat, p5: nat)
    requires FourDigitsAt(s, p0, g0) && TwoDigitsAt(s, p1, g1) && TwoDigitsAt(s, p2, g2)
    requires TwoDigitsAt(s, p3, g3) && TwoDigitsAt(s, p4, g4) && TwoDigitsAt(s, p5, g5)
    requires Joined(s, p0 + 4, p1) && Joined(s, p1 + 2, p2) && Joined(s, p2 + 2, p3)
    requires Joined(s, p3 + 2, p4) && Joined(s, p4 + 2, p5)
    ensures Layout(s, [g0, g1, g2, g3, g4, g5], [p0, p1, p2, p3, p4, p5])
  {
    FourDigitsGroup(s, p0, g0);
    TwoDigitsGroup(s, p1, g1);
    TwoDigitsGroup(s, p2, g2);
    TwoDigitsGroup(s, p3, g3);
    TwoDigitsGroup(s, p4, g4);
    TwoDigitsGroup(s, p5, g5);
  }

  /** The q-th group of a layout, and its join to the next one. */
  lemma LayoutAt(s: string, g: seq<string>, p: seq<nat>, q: nat)
    requires Layout(s, g, p) && q < 6
    ensures GroupAt(s, p[q], Width(q), g[q])
    ensures q < 5 ==> Joined(s, p[q] + Width(q), p[q + 1])
  {
  }

  /** A digit group in place, followed by a successful scan of the rest. */
  lemma GroupStep(pat: seq<Element>, k: nat, s: string, i: nat, w: nat, group: string, rest: seq<string>)
    requires k < |pat| && pat[k] == Digits(w) && GroupAt(s, i, w, group)
    requires Scan(pat, k + 1, s, i + w) == Some(rest)
    ensures Scan(pat, k, s, i) == Some([group] + rest)
  {
  }

  /** A separator joining a group end to the next group is skipped by the scan. */
  lemma JoinStep(pat: seq<Element>, k: nat, s: string, e: nat, next: nat)
    requires k < |pat| && pat[k] == OptNonDigit && Joined(s, e, next)
    requires next < |s| && IsDigit(s[next])
    ensures Scan(pat, k, s, e) == Scan(pat, k + 1, s, next)
  {
  }

  /** Six digit groups joined by at most one non-digit each scan to exactly
      those groups. */
  lemma {:induction false} ScanLayout(s: string, g: seq<string>, p: seq<nat>, q: nat)
    requires Layout(s, g, p) && q < 6
    ensures Scan(Pattern, 2 * q, s, p[q]) == Some(g[q..])
    decreases 6 - q
  {
    PatternLayout(q);
    LayoutAt(s, g, p, q);
    var e := p[q] + Width(q);
    assert g[q..] == [g[q]] + g[q + 1..];
    if q == 5 {
      assert Scan(Pattern, 2 * q + 1, s, e) == Some([]);
    } else {
      ScanLayout(s, g, p, q + 1);
      LayoutAt(s, g, p, q + 1);
      assert s[p[q + 1]] == s[p[q + 1]..p[q + 1] + Width(q + 1)][0];
      JoinStep(Pattern, 2 * q + 1, s, e, p[q + 1]);
    }
    GroupStep(Pattern, 2 * q, s, p[q], Width(q), g[q], g[q + 1..]);
  }

  /** A match at the very start of the path is the leftmost one. */
  lemma GuessAtStart(s: string, g: seq<string>)
    requires Scan(Pattern, 0, s, 0) == Some(g)
    ensures |g| == 6 && forall j :: 0 <= j < 6 ==> AllDigits(g[j])
    ensures GuessTimeFromPath(s) == DateTimeOfGroups(g)
  {
    PatternShape();
    assert SearchFrom(Pattern, s, 0) == Some(Found(0, g));
  }

  /** A layout from position 0 decides the guess. */
  lemma GuessFromLayout(s: string, g: seq<string>, p: seq<nat>)
    requires Layout(s, g, p) && p[0] == 0
    ensures GuessTimeFromPath(s) == DateTimeOfGroups(g)
  {
    ScanLayout(s, g, p, 0);
    assert g[0..] == g;
    GuessAtStart(s, g);
  }

  /** Six groups given character by character, from position 0, decide the guess. */
  lemma ParseByLayout(s: string, g0: string, g1: string, g2: string, g3: string, g4: string, g5: string,
                      p1: nat, p2: nat, p3: nat, p4: nat, p5: nat)
    requires FourDigitsAt(s, 0, g0) && TwoDigitsAt(s, p1, g1) && TwoDigitsAt(s, p2, g2)
    requires TwoDigitsAt(s, p3, g3) && TwoDigitsAt(s, p4, g4) && TwoDigitsAt(s, p5, g5)
    requires Joined(s, 4, p1) && Joined(s, p1 + 2, p2) && Joined(s, p2 + 2, p3)
    requires Joined(s, p3 + 2, p4) && Joined(s, p4 + 2, p5)
    ensures GuessTimeFromPath(s) == DateTimeOfGroups([g0, g1, g2, g3, g4, g5])
  {
    MakeLayout(s, g0, g1, g2, g3, g4, g5, 0, p1, p2, p3, p4, p5);
    GuessFromLayout(s, [g0, g1, g2, g3, g4, g5], [0, p1, p2, p3, p4, p5]);
  }

  // The fragments listed in the script's comments, and rejected ones.

  lemma GroupsCompact()
    ensures DateTimeOfGroups(["2019", "08", "15", "07", "34", "04"]) == Some(DateTime(2019, 8, 15, 7, 34, 4, 0))
  {
    FourDigits("2019"); TwoDigits("08"); TwoDigits("15"); TwoDigits("07"); TwoDigits("34"); TwoDigits("04");
    assert DecimalValue("2019") == 2019;
    assert DecimalValue("08") == 8;
    assert DecimalValue("15") == 15;
    assert DecimalValue("07") == 7;
    assert DecimalValue("34") == 34;
    assert DecimalValue("04") == 4;
    var g := ["2019", "08", "15", "07", "34", "04"];
    assert g[0] == "2019" && g[1] == "08" && g[2] == "15" && g[3] == "07" && g[4] == "34" && g[5] == "04";
  }

  lemma ParseCompact()
    ensures GuessTimeFromPath("20190815-073404") == Some(DateTime(2019, 8, 15, 7, 34, 4, 0))
  {
    ParseByLayout("20190815-073404", "2019", "08", "15", "07", "34", "04", 4, 6, 9, 11, 13);
    GroupsCompact();
  }

  lemma GroupsIso()
    ensures DateTimeOfGroups(["1997", "08", "29", "02", "14", "00"]) == Some(DateTime(1997, 8, 29, 2, 14, 0, 0))
  {
    FourDigits("1997"); TwoDigits("08"); TwoDigits("29"); TwoDigits("02"); TwoDigits("14"); TwoDigits("00");
    assert DecimalValue("1997") == 1997;
    assert DecimalValue("08") == 8;
    assert DecimalValue("29") == 29;
    assert DecimalValue("02") == 2;
    assert DecimalValue("14") == 14;
    assert DecimalValue("00") == 0;
    var g := ["1997", "08", "29", "02", "14", "00"];
    assert g[0] == "1997" && g[1] == "08" && g[2] == "29" && g[3] == "02" && g[4] == "14" && g[5] == "00";
  }

  lemma ParseIso()
    ensures GuessTimeFromPath("1997-08-29T02:14:00") == Some(DateTime(1997, 8, 29, 2, 14, 0, 0))
  {
    ParseByLayout("1997-08-29T02:14:00", "1997", "08", "29", "02", "14", "00", 5, 8, 11, 14, 17);
    GroupsIso();
  }

  lemma GroupsUnderscored()
    ensures DateTimeOfGroups(["2016", "06", "23", "16", "41", "53"]) == Some(DateTime(2016, 6, 23, 16, 41, 53, 0))
  {
    FourDigits("2016"); TwoDigits("06"); TwoDigits("23"); TwoDigits("16"); TwoDigits("41"); TwoDigits("53");
    assert DecimalValue("2016") == 2016;
    assert DecimalValue("06") == 6;
    assert DecimalValue("23") == 23;
    assert DecimalValue("16") == 16;
    assert DecimalValue("41") == 41;
    assert DecimalValue("53") == 53;
    var g := ["2016", "06", "23", "16", "41", "53"];
    assert g[0] == "2016" && g[1] == "06" && g[2] == "23" && g[3] == "16" && g[4] == "41" && g[5] == "53";
  }

  lemma ParseUnderscored()
    ensures GuessTimeFromPath("2016-06-23_16-41-53") == Some(DateTime(2016, 6, 23, 16, 41, 53, 0))
  {
    ParseByLayout("2016-06-23_16-41-53", "2016", "06", "23", "16", "41", "53", 5, 8, 11, 14, 17);
    GroupsUnderscored();
  }

  lemma GroupsRunTogetherTime()
    ensures DateTimeOfGroups(["2017", "03", "13", "19", "23", "38"]) == Some(DateTime(2017, 3, 13, 19, 23, 38, 0))
  {
    FourDigits("2017"); TwoDigits("03"); TwoDigits("13"); TwoDigits("19"); TwoDigits("23"); TwoDigits("38");
    assert DecimalValue("2017") == 2017;
    assert DecimalValue("03") == 3;
    assert DecimalValue("13") == 13;
    assert DecimalValue("19") == 19;
    assert DecimalValue("23") == 23;
    assert DecimalValue("38") == 38;
    var g := ["2017", "03", "13", "19", "23", "38"];
    assert g[0] == "2017" && g[1] == "03" && g[2] == "13" && g[3] == "19" && g[4] == "23" && g[5] == "38";
  }

  lemma ParseRunTogetherTime()
    ensures GuessTimeFromPath("2017-03-13-192338") == Some(DateTime(2017, 3, 13, 19, 23, 38, 0))
  {
    ParseByLayout("2017-03-13-192338", "2017", "03", "13", "19", "23", "38", 5, 8, 11, 13, 15);
    GroupsRunTogetherTime();
  }

  lemma GroupsOutOfRange()
    ensures DateTimeOfGroups(["2019", "13", "32", "99", "99", "99"]) == None
  {
    FourDigits("2019"); TwoDigits("13"); TwoDigits("32"); TwoDigits("99"); TwoDigits("99"); TwoDigits("99");
    assert DecimalValue("2019") == 2019;
    assert DecimalValue("13") == 13;
    assert DecimalValue("32") == 32;
    assert DecimalValue("99") == 99;
    assert DecimalValue("99") == 99;
    assert DecimalValue("99") == 99;
    var g := ["2019", "13", "32", "99", "99", "99"];
    assert g[0] == "2019" && g[1] == "13" && g[2] == "32" && g[3] == "99" && g[4] == "99" && g[5] == "99";
  }

  lemma ParseOutOfRange()
    ensures GuessTimeFromPath("20191332-999999") == None
  {
    ParseByLayout("20191332-999999", "2019", "13", "32", "99", "99", "99", 4, 6, 9, 11, 13);
    GroupsOutOfRange();
  }

  lemma GroupsFebruary30()
    ensures DateTimeOfGroups(["2019", "02", "30", "12", "00", "00"]) == None
  {
    FourDigits("2019"); TwoDigits("02"); TwoDigits("30"); TwoDigits("12"); TwoDigits("00"); TwoDigits("00");
    assert DecimalValue("2019") == 2019;
    assert DecimalValue("02") == 2;
    assert DecimalValue("30") == 30;
    assert DecimalValue("12") == 12;
    assert DecimalValue("00") == 0;
    assert DecimalValue("00") == 0;
    var g := ["2019", "02", "30", "12", "00", "00"];
    assert g[0] == "2019" && g[1] == "02" && g[2] == "30" && g[3] == "12" && g[4] == "00" && g[5] == "00";
  }

  lemma ParseFebruary30()
    ensures GuessTimeFromPath("2019-02-30_12-00-00") == None
  {
    ParseByLayout("2019-02-30_12-00-00", "2019", "02", "30", "12", "00", "00", 5, 8, 11, 14, 17);
    GroupsFebruary30();
  }

  /** Only the leftmost match is tried: the valid fragment later in the path
      does not rescue the out-of-range first match. */
  lemma ParseFirstMatchOnly()
    ensures GuessTimeFromPath("20191332-999999" + "_20190815-073404") == None
    ensures GuessTimeFromPath("20190815-073404").Some?
  {
    var first, rest := "20191332-999999", "_20190815-073404";
    var g := ["2019", "13", "32", "99", "99", "99"];
    MakeLayout(first, "2019", "13", "32", "99", "99", "99", 0, 4, 6, 9, 11, 13);
    ScanLayout(first, g, [0, 4, 6, 9, 11, 13], 0);
    assert g[0..] == g;
    PatternShape();
    ScanIgnoresSuffix(Pattern, 0, first, rest, 0);
    GuessAtStart(first + rest, g);
    GroupsOutOfRange();
    ParseCompact();
  }

  lemma GroupStepFails(k: nat, s: string, i: nat)
    requires k < |Pattern| && Pattern[k].Digits? && i < |s| && !IsDigit(s[i])
    requires Pattern[k].n > 0
    ensures Scan(Pattern, k, s, i) == None
  {
    if i + Pattern[k].n <= |s| {
      assert s[i..i + Pattern[k].n][0] == s[i];
    }
  }

  lemma SeparatorStep(k: nat, s: string, i: nat)
    requires k < |Pattern| && Pattern[k] == OptNonDigit && i < |s| && !IsDigit(s[i])
    ensures Scan(Pattern, k, s, i) == Scan(Pattern, k + 1, s, i + 1)
  {
  }

  /** Two characters between the day and the hour are one more than `\D?`
      allows, so no match starts here. */
  lemma TwoSeparatorsRejected()
    ensures !MatchesAt(Pattern, "2019-08-15__07-34-04", 0)
  {
    var s := "2019-08-15__07-34-04";
    GroupStepFails(6, s, 11);
    SeparatorStep(5, s, 10);
    assert Scan(Pattern, 4, s, 8).None?;
    SeparatorStep(3, s, 7);
    assert Scan(Pattern, 2, s, 5).None?;
    SeparatorStep(1, s, 4);
    assert Scan(Pattern, 0, s, 0).None?;
    PatternShape();
    NoMatchWhereScanFails(Pattern, s, 0);
  }

  /** No match starts where a non-digit falls inside the first four characters. */
  lemma FirstGroupFails(s: string, j: nat, m: nat)
    requires j <= m < j + 4 && m < |s| && !IsDigit(s[m])
    ensures !MatchesAt(Pattern, s, j)
  {
    if j + 4 <= |s| {
      assert s[j..j + 4][m - j] == s[m];
    }
    PatternShape();
    NoMatchWhereScanFails(Pattern, s, j);
  }

  /** No match starts within three characters of the end. */
  lemma TooCloseToEnd(s: string, j: nat)
    requires |s| < j + 4 && j <= |s|
    ensures !MatchesAt(Pattern, s, j)
  {
    PatternShape();
    NoMatchWhereScanFails(Pattern, s, j);
  }

  /** With the doubled separator the path has no match anywhere, so no
      timestamp is guessed from it. */
  lemma TwoSeparatorsNoGuess()
    ensures GuessTimeFromPath("2019-08-15__07-34-04") == None
  {
    var s := "2019-08-15__07-34-04";
    TwoSeparatorsRejected();
    forall j | 1 <= j <= |s|
      ensures !MatchesAt(Pattern, s, j)
    {
      if j <= 4 {
        FirstGroupFails(s, j, 4);
      } else if j <= 7 {
        FirstGroupFails(s, j, 7);
      } else if j <= 10 {
        FirstGroupFails(s, j, 10);
      } else if j == 11 {
        FirstGroupFails(s, j, 11);
      } else if j <= 14 {
        FirstGroupFails(s, j, 14);
      } else if j <= 17 {
        FirstGroupFails(s, j, 17);
      } else {
        TooCloseToEnd(s, j);
      }
    }
    GuessWithoutMatch(s);
  }
}
