/** The non-destructive writer, `persist_file_info`: it refuses to touch a
    file that already carries EXIF or XMP data (unless forced), resolves the
    timestamp, assigns the fixed write-set to an in-memory metadata
    container, and commits the container to the file unless it is a dry run. */
module MetadataWriter {
  import opened Base
  import opened DateTimes
  import opened Resolver

  /** A value assigned to a metadata key. The conversion of each value into
      the key's own text format is the metadata library's concern. */
  datatype Tag = DateTag(when: DateTime) | ListTag(items: seq<string>) | RawTag(raw: string)

  /** The six date fields the tool fills, in the order it fills them. */
  const DateFieldNames: seq<string> := [
    "Exif.Image.DateTime", "Exif.Photo.DateTimeDigitized",
    "Exif.Photo.DateTimeOriginal", "Xmp.exif.DateTimeDigitized",
    "Xmp.exif.DateTimeOriginal", "Xmp.xmp.CreateDate"]

  const SubjectField := "Xmp.dc.subject"
  const SubjectValue: seq<string> := ["Screenshot"]

  /** The order in which the write-set's keys are assigned: the insertion
      order of the dictionary, date fields first, then the subject. */
  const WriteOrder: seq<string> := DateFieldNames + [SubjectField]

  predicate IsPrefix(prefix: string, s: string) {
    |prefix| <= |s| && s[..|prefix|] == prefix
  }

  /** A key whose family is EXIF or XMP (IPTC keys are neither). */
  predicate IsExifOrXmpKey(key: string) {
    IsPrefix("Exif.", key) || IsPrefix("Xmp.", key)
  }

  /** `md.exif_keys or md.xmp_keys`: the container holds an EXIF or XMP key. */
  predicate HasExifOrXmpKeys(tags: map<string, Tag>)
    ensures HasExifOrXmpKeys(tags) ==> tags != map[]
  {
    exists key :: key in tags && IsExifOrXmpKey(key)
  }

  /** `to_write` for the resolved timestamp t: exactly the six date fields,
      each holding t, and the subject holding ["Screenshot"]. */
  ghost predicate IsWriteSet(w: map<string, Tag>, t: DateTime) {
    && (forall key :: key in w <==> key in WriteOrder)
    && (forall i :: 0 <= i < |DateFieldNames| ==> w[DateFieldNames[i]] == DateTag(t))
    && w[SubjectField] == ListTag(SubjectValue)
  }

  /** The subject is not one of the date fields. */
  lemma SubjectIsNotDateField()
    ensures SubjectField !in DateFieldNames
  {
    forall i | 0 <= i < |DateFieldNames|
      ensures DateFieldNames[i] != SubjectField
    {
      assert DateFieldNames[i][..5] != SubjectField[..5] || DateFieldNames[i][5] != SubjectField[5];
    }
  }

  /** The write-set for a timestamp is unique. */
  lemma WriteSetUnique(w1: map<string, Tag>, w2: map<string, Tag>, t: DateTime)
    requires IsWriteSet(w1, t) && IsWriteSet(w2, t)
    ensures w1 == w2
  {
    forall key | key in w1
      ensures w1[key] == w2[key]
    {
      assert key in WriteOrder;
      if key != SubjectField {
        var i :| 0 <= i < |DateFieldNames| && DateFieldNames[i] == key;
      }
    }
  }

  /** A sequence without repetitions has as many distinct elements as entries. */
  lemma {:induction false} DistinctElementsCardinality(s: seq<string>)
    requires forall i, j :: 0 <= i < j < |s| ==> s[i] != s[j]
    ensures |(set key | key in s)| == |s|
  {
    if s != [] {
      var init := s[..|s| - 1];
      DistinctElementsCardinality(init);
      assert (set key | key in s) == (set key | key in init) + {s[|s| - 1]};
    }
  }

  /** The write-set has seven entries: its keys are pairwise distinct. */
  lemma WriteSetHasSevenEntries(w: map<string, Tag>, t: DateTime)
    requires IsWriteSet(w, t)
    ensures |w| == 7
  {
    var lengths := [19, 28, 27, 26, 25, 18, 14];
    assert forall i :: 0 <= i < 7 ==> |WriteOrder[i]| == lengths[i];
    DistinctElementsCardinality(WriteOrder);
    assert w.Keys == set key | key in WriteOrder;
  }

  /** The guard sees EXIF and XMP keys, and nothing else: a file whose only
      metadata is IPTC is not protected. */
  lemma GuardExamples(v: Tag)
    ensures HasExifOrXmpKeys(map["Exif.Image.Make" := v])
    ensures HasExifOrXmpKeys(map["Xmp.xmp.CreateDate" := v])
    ensures !HasExifOrXmpKeys(map["Iptc.Application2.Keywords" := v])
    ensures !HasExifOrXmpKeys(map[])
  {
    assert IsExifOrXmpKey("Exif.Image.Make");
    assert IsExifOrXmpKey("Xmp.xmp.CreateDate");
    var iptc := "Iptc.Application2.Keywords";
    assert iptc[..4][0] == iptc[..5][0] == 'I';
  }

  /** The first loop of `persist_file_info`: `to_write[fieldname] = datetime_obj`
      for every date field, then the subject. */
  method BuildWriteSet(t: DateTime) returns (w: map<string, Tag>)
    ensures IsWriteSet(w, t)
  {
    w := map[];
    for i := 0 to |DateFieldNames|
      invariant forall key :: key in w <==> key in DateFieldNames[..i]
      invariant forall key :: key in w ==> w[key] == DateTag(t)
    {
      w := w[DateFieldNames[i] := DateTag(t)];
    }
    SubjectIsNotDateField();
    w := w[SubjectField := ListTag(SubjectValue)];
  }

  /** An image file on disk: its committed metadata and its modification time. */
  class ImageFile {
    var tags: map<string, Tag>
    var mtime: DateTime

    constructor(tags: map<string, Tag>, mtime: DateTime)
      ensures this.tags == tags && this.mtime == mtime
    {
      this.tags := tags;
      this.mtime := mtime;
    }
  }

  /** `pyexiv2.ImageMetadata`: an in-memory copy of a file's metadata. */
  class ImageMetadata {
    const file: ImageFile
    var tags: map<string, Tag>

    constructor(file: ImageFile)
      ensures this.file == file && tags == map[]
    {
      this.file := file;
      tags := map[];
    }

    /** `md.read()`: load the file's committed metadata. */
    method Read()
      modifies this`tags
      ensures tags == file.tags
    {
      tags := file.tags;
    }

    /** `md[key] = value`: change the in-memory copy only. */
    method Assign(key: string, value: Tag)
      modifies this`tags
      ensures tags == old(tags)[key := value]
    {
      tags := tags[key := value];
    }

    /** The second loop of `persist_file_info`: `md[key] = w[key]` for every
        key of w, in the given order. */
    method AssignAll(order: seq<string>, w: map<string, Tag>)
      requires forall key :: key in w <==> key in order
      modifies this`tags
      ensures tags == old(tags) + w
    {
      for i := 0 to |order|
        invariant forall key :: key in tags <==> key in old(tags) || key in order[..i]
        invariant forall key :: key in tags ==>
          tags[key] == if key in order[..i] then w[key] else old(tags)[key]
      {
        Assign(order[i], w[order[i]]);
      }
      assert order[..|order|] == order;
    }

    /** `md.write(preserve_timestamps=...)`: commit the in-memory copy; the
        modification time is kept when asked, otherwise it becomes `clock`.
        `writable` is whether the file system accepts the write; when it
        does not, the library raises OSError and the file is left as it was. */
    method Write(preserveTimestamps: bool, clock: DateTime, writable: bool) returns (ok: bool)
      modifies file
      ensures ok == writable
      ensures file.tags == if writable then tags else old(file.tags)
      ensures file.mtime == if writable && !preserveTimestamps then clock else old(file.mtime)
    {
      if !writable {
        return false;
      }
      file.tags := tags;
      if !preserveTimestamps {
        file.mtime := clock;
      }
      return true;
    }
  }

  /** What one call of `persist_file_info` did. */
  datatype Decision =
    | Skipped
    | Failed(error: Error)
    | DryRun(when: DateTime, toWrite: map<string, Tag>)
    | Written(when: DateTime, toWrite: map<string, Tag>)

  ghost predicate Resolves(fileinfo: FileInfo, localNow: DateTime, utcNow: DateTime) {
    !HasUncomparableCandidate(fileinfo) && HasSurvivor(fileinfo, localNow, utcNow)
  }

  /** `persist_file_info(filepath, fileinfo, dryrun, force)`, with the two
      clock readings of the resolver, the wall clock a write would stamp and
      whether the file system accepts a write passed in. It returns the
      decision and the container it worked on. */
  method PersistFileInfo(file: ImageFile, fileinfo: FileInfo, dryrun: bool, force: bool,
                         localNow: DateTime, utcNow: DateTime, clock: DateTime, writable: bool)
    returns (d: Decision, md: ImageMetadata)
    modifies file
    ensures fresh(md) && md.file == file
    ensures d.Skipped? <==> HasExifOrXmpKeys(old(file.tags)) && !force
    ensures !d.Skipped? && !Resolves(fileinfo, localNow, utcNow) ==>
      && d.Failed?
      && (d.error == InsufficientMetadata <==> !HasUncomparableCandidate(fileinfo))
      && (d.error != InsufficientMetadata ==>
            && d.error.NotComparable? && d.error.key in fileinfo
            && IsCandidateName(d.error.key) && !fileinfo[d.error.key].Time?)
    ensures !d.Skipped? && Resolves(fileinfo, localNow, utcNow) ==>
      if dryrun then d.DryRun? else if writable then d.Written? else d == Failed(FileAccess)
    ensures d.Failed? && d.error == FileAccess ==>
      Resolves(fileinfo, localNow, utcNow) && !dryrun && !writable
    ensures d.Skipped? || (d.Failed? && d.error != FileAccess) ==> md.tags == old(file.tags)
    ensures d.DryRun? || d.Written? ==>
      && IsEarliestSurvivor(d.when, fileinfo, localNow, utcNow)
      && IsWriteSet(d.toWrite, d.when)
      && md.tags == old(file.tags) + d.toWrite
    ensures d == Failed(FileAccess) ==>
      exists t, w :: IsEarliestSurvivor(t, fileinfo, localNow, utcNow) && IsWriteSet(w, t)
        && md.tags == old(file.tags) + w
    ensures file.tags == if d.Written? then old(file.tags) + d.toWrite else old(file.tags)
    ensures file.mtime == old(file.mtime)
  {
    md := new ImageMetadata(file);
    md.Read();
    if HasExifOrXmpKeys(md.tags) && !force {
      return Skipped, md;
    }
    var resolved := ChooseBestDateTime(fileinfo, localNow, utcNow);
    if resolved.Failure? {
      return Failed(resolved.error), md;
    }
    var when := resolved.value;
    var toWrite := BuildWriteSet(when);
    md.AssignAll(WriteOrder, toWrite);
    if !dryrun {
      var ok := md.Write(true, clock, writable);
      if !ok {
        return Failed(FileAccess), md;
      }
      return Written(when, toWrite), md;
    }
    return DryRun(when, toWrite), md;
  }

  /** A dry run previews the real run: on two copies of the same file, with
      the same dictionary, flags and clocks, the dry run skips or fails
      exactly when the real run does so for the same reason, and otherwise
      it previews what the real run writes, unless the file system refuses
      that write. */
  method PreviewMatchesWrite(tags: map<string, Tag>, mtime: DateTime, fileinfo: FileInfo, force: bool,
                             localNow: DateTime, utcNow: DateTime, clock: DateTime, writable: bool)
    returns (preview: Decision, committed: Decision)
    ensures preview.Skipped? <==> committed.Skipped?
    ensures preview.Failed? <==> committed.Failed? && committed.error != FileAccess
    ensures preview.DryRun? <==> committed.Written? || committed == Failed(FileAccess)
    ensures committed.Written? <==> preview.DryRun? && writable
    ensures committed.Written? ==> preview.when == committed.when && preview.toWrite == committed.toWrite
  {
    var first := new ImageFile(tags, mtime);
    var second := new ImageFile(tags, mtime);
    var md1, md2;
    preview, md1 := PersistFileInfo(first, fileinfo, true, force, localNow, utcNow, clock, writable);
    committed, md2 := PersistFileInfo(second, fileinfo, false, force, localNow, utcNow, clock, writable);
    if committed.Written? {
      EarliestSurvivorUnique(preview.when, committed.when, fileinfo, localNow, utcNow);
      WriteSetUnique(preview.toWrite, committed.toWrite, preview.when);
    }
  }
}
