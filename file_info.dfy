/** File-info assembly, `gather_file_info`: the dictionary of facts about one
    image that the resolver chooses a timestamp from. The format sniffer's
    verdict and the file's modification time come from outside and are
    passed in as probes. */
module FileInfoGathering {
  import opened Base
  import opened DateTimes
  import opened PathTime
  import opened Resolver

  /** The allow-list of sniffed formats the tool has been tried on. */
  const SupportedTypes: seq<string> := ["jpeg", "png"]

  predicate IsSupported(tag: Option<string>) {
    tag.Some? && tag.value in SupportedTypes
  }

  /** `fileinfo["type"]`: the sniffer's tag, or None when it knows no format. */
  function TypeValue(tag: Option<string>): Value {
    match tag
    case None => NoneValue
    case Some(t) => Text(t)
  }

  /** The dictionary of a supported file: its path, its type, its
      modification time, and the filename guess exactly when there is one. */
  predicate HasShape(info: FileInfo, path: string, tag: string, guess: Option<DateTime>, mtime: DateTime) {
    && info.Keys == {"path", "type", "mtime_obj"} + (if guess.Some? then {"pathtime_obj"} else {})
    && info["path"] == Text(path)
    && info["type"] == Text(tag)
    && info["mtime_obj"] == Time(mtime)
    && (guess.Some? ==> info["pathtime_obj"] == Time(guess.value))
  }

  /** `gather_file_info(filepath)`: `detected` is what `imghdr.what` returns
      (Unreadable when it raises), `mtime` is `getmtime` converted to local
      time (Unreadable when it raises). */
  method GatherFileInfo(path: string, detected: Probe<Option<string>>, mtime: Probe<DateTime>)
    returns (r: Result<FileInfo>)
    ensures detected.Unreadable? ==> r == Failure(FileAccess)
    ensures detected.Got? && !IsSupported(detected.value) ==>
      r == Failure(UnsupportedFileType(detected.value))
    ensures detected.Got? && IsSupported(detected.value) && mtime.Unreadable? ==>
      r == Failure(FileAccess)
    ensures r.Success? <==> detected.Got? && IsSupported(detected.value) && mtime.Got?
    ensures r.Success? ==> HasShape(r.value, path, detected.value.value, GuessTimeFromPath(path), mtime.value)
  {
    var info: FileInfo := map["path" := Text(path)];
    if detected.Unreadable? {
      return Failure(FileAccess);
    }
    var tag := detected.value;
    info := info["type" := TypeValue(tag)];
    if !(tag.Some? && tag.value in SupportedTypes) {
      return Failure(UnsupportedFileType(tag));
    }
    var guessed := GuessTimeFromPath(path);
    if guessed.Some? {
      info := info["pathtime_obj" := Time(guessed.value)];
    }
    if mtime.Unreadable? {
      return Failure(FileAccess);
    }
    info := info["mtime_obj" := Time(mtime.value)];
    return Success(info);
  }

  /** A gathered dictionary holds a datetime under every key that names a
      time or a date, so the resolver never meets an uncomparable key. */
  lemma GatheredInfoComparable(info: FileInfo, path: string, tag: string, guess: Option<DateTime>, mtime: DateTime)
    requires HasShape(info, path, tag, guess, mtime)
    ensures !HasUncomparableCandidate(info)
  {
    PathIsNotCandidate();
    TypeIsNotCandidate();
    forall name | name in info && IsCandidateName(name)
      ensures info[name].Time?
    {
      assert name in info.Keys;
      assert name != "path" && name != "type";
    }
  }

  /** Only the two datetime keys of a gathered dictionary can survive. */
  lemma GatheredSurvivorKeys(info: FileInfo, path: string, tag: string, guess: Option<DateTime>, mtime: DateTime,
                             localNow: DateTime, utcNow: DateTime, name: string)
    requires HasShape(info, path, tag, guess, mtime)
    requires Survives(info, name, localNow, utcNow)
    ensures name == "mtime_obj" || name == "pathtime_obj"
  {
    assert name in info.Keys;
    if name == "path" {
      PathIsNotCandidate();
    } else if name == "type" {
      TypeIsNotCandidate();
    }
  }

  /** The modification time survives exactly when it lies in the window. */
  lemma MTimeSurvives(info: FileInfo, path: string, tag: string, guess: Option<DateTime>, mtime: DateTime,
                      localNow: DateTime, utcNow: DateTime)
    requires HasShape(info, path, tag, guess, mtime)
    ensures Survives(info, "mtime_obj", localNow, utcNow) <==> InWindow(mtime, localNow, utcNow)
  {
    MTimeIsCandidate();
  }

  /** Without a filename guess the dictionary has no "pathtime_obj" key. */
  lemma NoGuessNoPathTime(info: FileInfo, path: string, tag: string, mtime: DateTime)
    requires HasShape(info, path, tag, None, mtime)
    ensures "pathtime_obj" !in info
  {
    assert |"pathtime_obj"| != |"path"| && |"pathtime_obj"| != |"type"| && |"pathtime_obj"| != |"mtime_obj"|;
  }

  /** The filename guess survives exactly when there is one and it lies in the window. */
  lemma PathTimeSurvives(info: FileInfo, path: string, tag: string, guess: Option<DateTime>, mtime: DateTime,
                         localNow: DateTime, utcNow: DateTime)
    requires HasShape(info, path, tag, guess, mtime)
    ensures Survives(info, "pathtime_obj", localNow, utcNow) <==>
      guess.Some? && InWindow(guess.value, localNow, utcNow)
  {
    if guess.None? {
      NoGuessNoPathTime(info, path, tag, mtime);
    } else {
      PathTimeIsCandidate();
    }
  }

  /** The survivors of a gathered dictionary are exactly the modification
      time and the filename guess, each when it lies in the window. */
  lemma GatheredInfoSurvivors(info: FileInfo, path: string, tag: string, guess: Option<DateTime>, mtime: DateTime,
                              localNow: DateTime, utcNow: DateTime, name: string)
    requires HasShape(info, path, tag, guess, mtime)
    ensures Survives(info, name, localNow, utcNow) <==>
      || (name == "mtime_obj" && InWindow(mtime, localNow, utcNow))
      || (name == "pathtime_obj" && guess.Some? && InWindow(guess.value, localNow, utcNow))
  {
    if name == "mtime_obj" {
      MTimeSurvives(info, path, tag, guess, mtime, localNow, utcNow);
    } else if name == "pathtime_obj" {
      PathTimeSurvives(info, path, tag, guess, mtime, localNow, utcNow);
    } else if Survives(info, name, localNow, utcNow) {
      GatheredSurvivorKeys(info, path, tag, guess, mtime, localNow, utcNow, name);
    }
  }

  /** Resolution of a gathered dictionary succeeds exactly when the
      modification time or the filename guess lies in the window. */
  lemma GatheredInfoResolves(info: FileInfo, path: string, tag: string, guess: Option<DateTime>, mtime: DateTime,
                             localNow: DateTime, utcNow: DateTime)
    requires HasShape(info, path, tag, guess, mtime)
    ensures HasSurvivor(info, localNow, utcNow) <==>
      || InWindow(mtime, localNow, utcNow)
      || (guess.Some? && InWindow(guess.value, localNow, utcNow))
  {
    GatheredInfoSurvivors(info, path, tag, guess, mtime, localNow, utcNow, "mtime_obj");
    GatheredInfoSurvivors(info, path, tag, guess, mtime, localNow, utcNow, "pathtime_obj");
    if HasSurvivor(info, localNow, utcNow) {
      var name :| Survives(info, name, localNow, utcNow);
      GatheredInfoSurvivors(info, path, tag, guess, mtime, localNow, utcNow, name);
    }
  }
}
