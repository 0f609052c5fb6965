/** The timestamp resolver, `choose_best_datetime`: among the entries of the
    file-info dictionary whose key names a time or a date, keep the values
    inside the validity window and return the earliest. */
module Resolver {
  import opened Base
  import opened DateTimes

  /** A value of the file-info dictionary: a string (the path, the type
      tag), a naive datetime, or Python's None. */
  datatype Value = Text(text: string) | Time(time: DateTime) | NoneValue

  type FileInfo = map<string, Value>

  function LowerChar(c: char): char {
    if 'A' <= c <= 'Z' then (c as int + 32) as char else c
  }

  /** `str.lower()`, restricted to the ASCII letters. */
  function Lower(s: string): (r: string)
    ensures |r| == |s|
    ensures forall i :: 0 <= i < |s| ==> r[i] == LowerChar(s[i])
  {
    if s == [] then [] else [LowerChar(s[0])] + Lower(s[1..])
  }

  predicate StartsWith(s: string, prefix: string) {
    |prefix| <= |s| && s[..|prefix|] == prefix
  }

  /** Python's `t in s` on two strings. */
  predicate Contains(s: string, t: string)
    ensures Contains(s, t) ==> |t| <= |s|
    decreases |s|
  {
    StartsWith(s, t) || (s != [] && Contains(s[1..], t))
  }

  predicate OccursAt(s: string, t: string, i: nat) {
    i + |t| <= |s| && s[i..i + |t|] == t
  }

  /** The recursive search agrees with "t occurs at some index of s". */
  lemma {:induction false} ContainsIsSubstring(s: string, t: string)
    ensures Contains(s, t) <==> exists i: nat :: OccursAt(s, t, i)
    decreases |s|
  {
    if StartsWith(s, t) {
      assert OccursAt(s, t, 0);
    } else if s == [] {
      assert forall i: nat :: !OccursAt(s, t, i);
    } else {
      ContainsIsSubstring(s[1..], t);
      if Contains(s[1..], t) {
        var i: nat :| OccursAt(s[1..], t, i);
        assert s[i + 1..i + 1 + |t|] == s[1..][i..i + |t|];
        assert OccursAt(s, t, i + 1);
      }
      forall i: nat | OccursAt(s, t, i) ensures Contains(s[1..], t) {
        assert i != 0;
        assert s[1..][i - 1..i - 1 + |t|] == s[i..i + |t|];
        assert OccursAt(s[1..], t, i - 1);
      }
    }
  }

  /** A string shorter than t never contains it. */
  lemma {:induction false} ShorterNeverContains(s: string, t: string)
    requires |s| < |t|
    ensures !Contains(s, t)
    decreases |s|
  {
    if s != [] {
      ShorterNeverContains(s[1..], t);
    }
  }

  /** Keys whose lower-cased name contains "time" or "date" are candidates. */
  predicate IsCandidateName(name: string)
    ensures IsCandidateName(name) ==> |name| >= 4
  {
    Contains(Lower(name), "time") || Contains(Lower(name), "date")
  }

  /** The floor of the window, `datetime.datetime(1990, 1, 1)`. */
  const MinTime := DateTime(1990, 1, 1, 0, 0, 0, 0)

  /** Strictly after the floor, and strictly before either of the two clocks. */
  predicate InWindow(t: DateTime, localNow: DateTime, utcNow: DateTime)
    ensures InWindow(t, localNow, utcNow) ==> t.year >= 1990 && t != MinTime
  {
    Before(MinTime, t) && (Before(t, localNow) || Before(t, utcNow))
  }

  ghost predicate Survives(fileinfo: FileInfo, name: string, localNow: DateTime, utcNow: DateTime) {
    && name in fileinfo && IsCandidateName(name)
    && fileinfo[name].Time? && InWindow(fileinfo[name].time, localNow, utcNow)
  }

  /** A candidate key that holds no datetime: comparing it raises TypeError. */
  ghost predicate HasUncomparableCandidate(fileinfo: FileInfo) {
    exists name :: name in fileinfo && IsCandidateName(name) && !fileinfo[name].Time?
  }

  ghost predicate HasSurvivor(fileinfo: FileInfo, localNow: DateTime, utcNow: DateTime) {
    exists name :: Survives(fileinfo, name, localNow, utcNow)
  }

  /** b is the value of a surviving candidate and no survivor is earlier. */
  ghost predicate IsEarliestSurvivor(b: DateTime, fileinfo: FileInfo, localNow: DateTime, utcNow: DateTime) {
    && (exists name :: Survives(fileinfo, name, localNow, utcNow) && fileinfo[name].time == b)
    && (forall name :: Survives(fileinfo, name, localNow, utcNow) ==> AtMost(b, fileinfo[name].time))
  }

  /** `sorted(valid_times.values())[0]`: the least value of a non-empty map. */
  method Earliest(times: map<string, DateTime>) returns (best: DateTime)
    requires times != map[]
    ensures best in times.Values
    ensures forall name :: name in times ==> AtMost(best, times[name])
  {
    var first :| first in times;
    best := times[first];
    var rest := times.Keys - {first};
    while rest != {}
      invariant rest <= times.Keys
      invariant best in times.Values
      invariant forall name :: name in times && name !in rest ==> AtMost(best, times[name])
      decreases rest
    {
      var name :| name in rest;
      if Before(times[name], best) {
        best := times[name];
      }
      rest := rest - {name};
    }
  }

  /** `choose_best_datetime(fileinfo)` with the two clock readings
      `datetime.now()` and `datetime.utcnow()` passed in. */
  method ChooseBestDateTime(fileinfo: FileInfo, localNow: DateTime, utcNow: DateTime)
    returns (r: Result<DateTime>)
    ensures r.Success? <==>
      !HasUncomparableCandidate(fileinfo) && HasSurvivor(fileinfo, localNow, utcNow)
    ensures r.Success? ==> IsEarliestSurvivor(r.value, fileinfo, localNow, utcNow)
    ensures r == Failure(InsufficientMetadata) <==>
      !HasUncomparableCandidate(fileinfo) && !HasSurvivor(fileinfo, localNow, utcNow)
    ensures r.Failure? && r.error != InsufficientMetadata ==>
      && r.error.NotComparable? && r.error.key in fileinfo
      && IsCandidateName(r.error.key) && !fileinfo[r.error.key].Time?
  {
    var validTimes: map<string, DateTime> := map[];
    var names := fileinfo.Keys;
    while names != {}
      invariant names <= fileinfo.Keys
      invariant forall name :: name in fileinfo && name !in names && IsCandidateName(name) ==>
        fileinfo[name].Time?
      invariant forall name :: name in validTimes <==>
        name !in names && Survives(fileinfo, name, localNow, utcNow)
      invariant forall name :: name in validTimes ==>
        fileinfo[name].Time? && validTimes[name] == fileinfo[name].time
      decreases names
    {
      var name :| name in names;
      if IsCandidateName(name) {
        var value := fileinfo[name];
        if !value.Time? {
          return Failure(NotComparable(name));
        }
        if Before(MinTime, value.time) && (Before(value.time, localNow) || Before(value.time, utcNow)) {
          validTimes := validTimes[name := value.time];
        }
      }
      names := names - {name};
    }
    if validTimes == map[] {
      return Failure(InsufficientMetadata);
    }
    var best := Earliest(validTimes);
    var source :| source in validTimes && validTimes[source] == best;
    assert Survives(fileinfo, source, localNow, utcNow);
    return Success(best);
  }

  /** The earliest survivor is unique, so every run on the same dictionary
      and clocks resolves to the same timestamp. */
  lemma EarliestSurvivorUnique(b1: DateTime, b2: DateTime, fileinfo: FileInfo, localNow: DateTime, utcNow: DateTime)
    requires IsEarliestSurvivor(b1, fileinfo, localNow, utcNow)
    requires IsEarliestSurvivor(b2, fileinfo, localNow, utcNow)
    ensures b1 == b2
  {
    var n1 :| Survives(fileinfo, n1, localNow, utcNow) && fileinfo[n1].time == b1;
    var n2 :| Survives(fileinfo, n2, localNow, utcNow) && fileinfo[n2].time == b2;
    AtMostAntisymmetric(b1, b2);
  }

  /** The window's edges: the floor itself is rejected; a value between the
      two clocks is accepted; a value at or after both clocks is rejected. */
  lemma WindowEdges(t: DateTime, localNow: DateTime, utcNow: DateTime)
    ensures !InWindow(MinTime, localNow, utcNow)
    ensures Before(MinTime, t) && Before(t, utcNow) && !Before(t, localNow) ==> InWindow(t, localNow, utcNow)
    ensures Before(MinTime, t) && Before(t, localNow) && !Before(t, utcNow) ==> InWindow(t, localNow, utcNow)
    ensures !Before(t, localNow) && !Before(t, utcNow) ==> !InWindow(t, localNow, utcNow)
    ensures !Before(MinTime, t) ==> !InWindow(t, localNow, utcNow)
  {
  }

  /** The keys "path" and "type" of the file-info dictionary never take part
      in the resolution. */
  lemma PathIsNotCandidate()
    ensures !IsCandidateName("path")
  {
    assert Lower("path") == "path";
    assert "path"[1..] == "ath";
    ShorterNeverContains("ath", "time");
    ShorterNeverContains("ath", "date");
  }

  lemma TypeIsNotCandidate()
    ensures !IsCandidateName("type")
  {
    assert Lower("type") == "type";
    assert "type"[1..] == "ype";
    ShorterNeverContains("ype", "time");
    ShorterNeverContains("ype", "date");
  }

  /** A name is a candidate once "time" or "date" shows, in any case, at some index. */
  lemma CandidateByOccurrence(name: string, word: string, i: nat)
    requires word == "time" || word == "date"
    requires i + |word| <= |name|
    requires forall k :: 0 <= k < |word| ==> LowerChar(name[i + k]) == word[k]
    ensures IsCandidateName(name)
  {
    var l := Lower(name);
    assert l[i..i + |word|] == word;
    assert OccursAt(l, word, i);
    ContainsIsSubstring(l, word);
  }

  /** The keys that hold datetimes do take part, and the match ignores case. */
  lemma PathTimeIsCandidate()
    ensures IsCandidateName("pathtime_obj")
  {
    CandidateByOccurrence("pathtime_obj", "time", 4);
  }

  lemma MTimeIsCandidate()
    ensures IsCandidateName("mtime_obj")
  {
    CandidateByOccurrence("mtime_obj", "time", 1);
  }

  lemma MixedCaseIsCandidate()
    ensures IsCandidateName("CreateDate")
  {
    CandidateByOccurrence("CreateDate", "date", 6);
  }
}
