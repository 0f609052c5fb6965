/** The filename timestamp parser: the leftmost match of
    `(\d{4})\D?(\d{2})\D?(\d{2})\D?(\d{2})\D?(\d{2})\D?(\d{2})` in a path,
    turned into a date-time when its six groups are in range. */
module PathTime {
  import opened Base
  import opened DateTimes

  predicate IsDigit(c: char) {
    '0' <= c <= '9'
  }

  predicate AllDigits(s: string) {
    forall i :: 0 <= i < |s| ==> IsDigit(s[i])
  }

  function Pow10(n: nat): (p: nat)
    ensures p >= 1
  {
    if n == 0 then 1 else 10 * Pow10(n - 1)
  }

  /** `int(group)` on a run of decimal digits. */
  function DecimalValue(s: string): (n: nat)
    requires AllDigits(s)
    ensures n < Pow10(|s|)
  {
    if s == [] then 0
    else 10 * DecimalValue(s[..|s| - 1]) + (s[|s| - 1] as int - '0' as int)
  }

  /** One element of the pattern: `(\d{n})`, a captured run of exactly n
      digits, or `\D?`, at most one non-digit. */
  datatype Element = Digits(n: nat) | OptNonDigit

  const Pattern: seq<Element> :=
    [Digits(4), OptNonDigit, Digits(2), OptNonDigit, Digits(2), OptNonDigit,
     Digits(2), OptNonDigit, Digits(2), OptNonDigit, Digits(2)]

  /** Every optional separator is followed by a non-empty run of digits, so
      at most one way of treating it can lead to a match. */
  predicate WellFormed(pat: seq<Element>) {
    forall k :: 0 <= k < |pat| && pat[k] == OptNonDigit ==>
      k + 1 < |pat| && pat[k + 1].Digits? && pat[k + 1].n > 0
  }

  function GroupCount(pat: seq<Element>, k: nat): nat
    requires k <= |pat|
    decreases |pat| - k
  {
    if k == |pat| then 0
    else (if pat[k].Digits? then 1 else 0) + GroupCount(pat, k + 1)
  }

  /** The regular-expression semantics, with all of its backtracking: some
      way of matching the elements pat[k..] starts at s[i] and captures
      `groups`. A match need not reach the end of s. */
  ghost predicate Matches(pat: seq<Element>, k: nat, s: string, i: nat, groups: seq<string>)
    requires k <= |pat| && i <= |s|
    ensures Matches(pat, k, s, i, groups) ==> |groups| == GroupCount(pat, k)
    decreases |pat| - k
  {
    if k == |pat| then groups == []
    else match pat[k]
      case Digits(n) =>
        && i + n <= |s| && AllDigits(s[i..i + n])
        && groups != [] && groups[0] == s[i..i + n]
        && Matches(pat, k + 1, s, i + n, groups[1..])
      case OptNonDigit =>
        || (i < |s| && !IsDigit(s[i]) && Matches(pat, k + 1, s, i + 1, groups))
        || Matches(pat, k + 1, s, i, groups)
  }

  /** The match attempt at one start position without backtracking: `\D?`
      takes the next character exactly when it is a non-digit. */
  function Scan(pat: seq<Element>, k: nat, s: string, i: nat): (r: Option<seq<string>>)
    requires k <= |pat| && i <= |s|
    ensures r.Some? ==> |r.value| == GroupCount(pat, k)
    ensures r.Some? ==> forall j :: 0 <= j < |r.value| ==> AllDigits(r.value[j])
    decreases |pat| - k
  {
    if k == |pat| then Some([])
    else match pat[k]
      case Digits(n) =>
        if i + n <= |s| && AllDigits(s[i..i + n]) then
          match Scan(pat, k + 1, s, i + n)
          case Some(rest) => Some([s[i..i + n]] + rest)
          case None => None
        else None
      case OptNonDigit =>
        if i < |s| && !IsDigit(s[i]) then Scan(pat, k + 1, s, i + 1)
        else Scan(pat, k + 1, s, i)
  }

  lemma {:induction false} ScanSound(pat: seq<Element>, k: nat, s: string, i: nat)
    requires k <= |pat| && i <= |s|
    requires Scan(pat, k, s, i).Some?
    ensures Matches(pat, k, s, i, Scan(pat, k, s, i).value)
    decreases |pat| - k
  {
    if k < |pat| {
      match pat[k]
      case Digits(n) =>
        ScanSound(pat, k + 1, s, i + n);
        var g := Scan(pat, k, s, i).value;
        assert g[1..] == Scan(pat, k + 1, s, i + n).value;
      case OptNonDigit =>
        if i < |s| && !IsDigit(s[i]) {
          ScanSound(pat, k + 1, s, i + 1);
        } else {
          ScanSound(pat, k + 1, s, i);
        }
    }
  }

  lemma {:induction false} ScanComplete(pat: seq<Element>, k: nat, s: string, i: nat, groups: seq<string>)
    requires WellFormed(pat)
    requires k <= |pat| && i <= |s|
    requires Matches(pat, k, s, i, groups)
    ensures Scan(pat, k, s, i) == Some(groups)
    decreases |pat| - k
  {
    if k < |pat| {
      match pat[k]
      case Digits(n) =>
        ScanComplete(pat, k + 1, s, i + n, groups[1..]);
        assert groups == [s[i..i + n]] + groups[1..];
      case OptNonDigit =>
        if i < |s| && !IsDigit(s[i]) {
          // Skipping the separator would leave a non-digit where pat[k + 1]
          // needs a digit, so the match consumed it.
          ScanComplete(pat, k + 1, s, i + 1, groups);
        } else {
          ScanComplete(pat, k + 1, s, i, groups);
        }
    }
  }

  /** What follows a match does not change it. */
  lemma {:induction false} ScanIgnoresSuffix(pat: seq<Element>, k: nat, s: string, t: string, i: nat)
    requires WellFormed(pat) && k <= |pat| && i <= |s|
    requires Scan(pat, k, s, i).Some?
    ensures Scan(pat, k, s + t, i) == Scan(pat, k, s, i)
    decreases |pat| - k
  {
    if k < |pat| {
      match pat[k]
      case Digits(n) =>
        assert (s + t)[i..i + n] == s[i..i + n];
        ScanIgnoresSuffix(pat, k + 1, s, t, i + n);
      case OptNonDigit =>
        if i < |s| {
          assert (s + t)[i] == s[i];
          if !IsDigit(s[i]) {
            ScanIgnoresSuffix(pat, k + 1, s, t, i + 1);
          } else {
            ScanIgnoresSuffix(pat, k + 1, s, t, i);
          }
        }
        // Otherwise i == |s|: pat[k + 1] would need a digit that s lacks, so
        // Scan(pat, k, s, i) is None, against the precondition.
    }
  }

  /** At a given start the pattern matches in at most one way. */
  lemma MatchUnique(pat: seq<Element>, s: string, i: nat, g1: seq<string>, g2: seq<string>)
    requires WellFormed(pat) && i <= |s|
    requires Matches(pat, 0, s, i, g1) && Matches(pat, 0, s, i, g2)
    ensures g1 == g2
  {
    ScanComplete(pat, 0, s, i, g1);
    ScanComplete(pat, 0, s, i, g2);
  }

  lemma PatternShape()
    ensures WellFormed(Pattern)
    ensures GroupCount(Pattern, 0) == 6
  {
    assert GroupCount(Pattern, 11) == 0;
    assert GroupCount(Pattern, 10) == 1;
    assert GroupCount(Pattern, 9) == 1;
    assert GroupCount(Pattern, 8) == 2;
    assert GroupCount(Pattern, 7) == 2;
    assert GroupCount(Pattern, 6) == 3;
    assert GroupCount(Pattern, 5) == 3;
    assert GroupCount(Pattern, 4) == 4;
    assert GroupCount(Pattern, 3) == 4;
    assert GroupCount(Pattern, 2) == 5;
    assert GroupCount(Pattern, 1) == 5;
  }

  ghost predicate MatchesAt(pat: seq<Element>, s: string, j: nat)
    requires j <= |s|
  {
    exists g :: Matches(pat, 0, s, j, g)
  }

  lemma NoMatchWhereScanFails(pat: seq<Element>, s: string, i: nat)
    requires WellFormed(pat) && i <= |s|
    requires Scan(pat, 0, s, i).None?
    ensures !MatchesAt(pat, s, i)
  {
    forall g | Matches(pat, 0, s, i, g) ensures false {
      ScanComplete(pat, 0, s, i, g);
    }
  }

  datatype Found = Found(start: nat, groups: seq<string>)

  /** `re.search`: try every start position from i to |s|, leftmost first. */
  function SearchFrom(pat: seq<Element>, s: string, i: nat): (r: Option<Found>)
    requires i <= |s|
    ensures r.Some? ==> i <= r.value.start <= |s|
    ensures r.Some? ==> Scan(pat, 0, s, r.value.start) == Some(r.value.groups)
    decreases |s| - i
  {
    match Scan(pat, 0, s, i)
    case Some(g) => Some(Found(i, g))
    case None => if i == |s| then None else SearchFrom(pat, s, i + 1)
  }

  lemma {:induction false} SearchFromLeftmost(pat: seq<Element>, s: string, i: nat)
    requires WellFormed(pat) && i <= |s|
    ensures SearchFrom(pat, s, i).Some? ==>
      var f := SearchFrom(pat, s, i).value;
      Matches(pat, 0, s, f.start, f.groups) &&
      forall j :: i <= j < f.start ==> !MatchesAt(pat, s, j)
    ensures SearchFrom(pat, s, i).None? ==> forall j :: i <= j <= |s| ==> !MatchesAt(pat, s, j)
    decreases |s| - i
  {
    if Scan(pat, 0, s, i).Some? {
      ScanSound(pat, 0, s, i);
    } else {
      NoMatchWhereScanFails(pat, s, i);
      if i < |s| {
        SearchFromLeftmost(pat, s, i + 1);
      }
    }
  }

  /** `int()` of the six groups, then the datetime constructor. */
  function DateTimeOfGroups(g: seq<string>): (r: Option<DateTime>)
    requires |g| == 6 && forall j :: 0 <= j < 6 ==> AllDigits(g[j])
    ensures r.Some? ==>
      && Valid(r.value)
      && r.value == DateTime(DecimalValue(g[0]), DecimalValue(g[1]), DecimalValue(g[2]),
                             DecimalValue(g[3]), DecimalValue(g[4]), DecimalValue(g[5]), 0)
    ensures r.None? <==>
      !Valid(DateTime(DecimalValue(g[0]), DecimalValue(g[1]), DecimalValue(g[2]),
                      DecimalValue(g[3]), DecimalValue(g[4]), DecimalValue(g[5]), 0))
  {
    MakeDateTime(DecimalValue(g[0]), DecimalValue(g[1]), DecimalValue(g[2]),
                 DecimalValue(g[3]), DecimalValue(g[4]), DecimalValue(g[5]))
  }

  /** `guess_time_from_filepath`: only the leftmost match is tried; groups
      out of range give None, as does a path without a match. */
  function GuessTimeFromPath(path: string): (r: Option<DateTime>)
    ensures r.Some? ==> Valid(r.value) && r.value.microsecond == 0
  {
    match SearchFrom(Pattern, path, 0)
    case None => None
    case Some(f) => PatternShape(); DateTimeOfGroups(f.groups)
  }

  /** The parse is decided by the leftmost start at which the pattern matches. */
  lemma GuessFromLeftmostMatch(path: string, k: nat, g: seq<string>)
    requires k <= |path|
    requires Matches(Pattern, 0, path, k, g)
    requires forall j :: 0 <= j < k ==> !MatchesAt(Pattern, path, j)
    ensures |g| == 6 && forall j :: 0 <= j < 6 ==> AllDigits(g[j])
    ensures GuessTimeFromPath(path) == DateTimeOfGroups(g)
  {
    PatternShape();
    ScanComplete(Pattern, 0, path, k, g);
    SearchFromLeftmost(Pattern, path, 0);
    assert MatchesAt(Pattern, path, k);
    var f := SearchFrom(Pattern, path, 0).value;
    assert MatchesAt(Pattern, path, f.start);
    MatchUnique(Pattern, path, k, g, f.groups);
  }

  lemma GuessWithoutMatch(path: string)
    requires forall j :: 0 <= j <= |path| ==> !MatchesAt(Pattern, path, j)
    ensures GuessTimeFromPath(path) == None
  {
    PatternShape();
    SearchFromLeftmost(Pattern, path, 0);
    if SearchFrom(Pattern, path, 0).Some? {
      var f := SearchFrom(Pattern, path, 0).value;
      assert MatchesAt(Pattern, path, f.start);
    }
  }
}
