/** `read_dataset` of the training utilities: the samples and labels read
    from the JSON files of a folder whose names match the requested objects,
    people and sessions. The folder is a listing plus the decoded contents of
    its files; the optional random subsampling is not part of this model. */
module Dataset {
  import opened Wrappers
  import opened Strings
  import opened Listing
  import opened JsonValues

  /** What a file name encodes: `<object>_<person>_<session>...`. */
  datatype FileKey = FileKey(objectName: string, person: string, session: string)

  /** The exceptions `read_dataset` can raise. */
  datatype LoadError =
    | FieldMissing(name: string)    // fewer than three '_' fields, or an empty third one
    | UnreadableFile(name: string)  // a selected file without contents
    | NoPoints(name: string)        // a record of a selected file without a "points" entry

  /** The feature list `x` and the label list `y`. */
  datatype Samples = Samples(points: seq<Json>, labels: seq<nat>)

  const NoSamples: Samples := Samples([], [])

  /** Fields 0 and 1 of the name split on '_', and the first character of
      field 2 as the session. */
  function ParseName(name: string): (r: Result<FileKey, LoadError>)
    ensures r.Err? <==> |Split(name, '_')| < 3 || |Split(name, '_')[2]| == 0
    ensures r.Err? ==> r.error == FieldMissing(name)
    ensures r.Ok? ==> |r.value.session| == 1 && '_' !in r.value.objectName && '_' !in r.value.person
  {
    var fields := Split(name, '_');
    if |fields| < 3 || |fields[2]| == 0 then Err(FieldMissing(name))
    else Ok(FileKey(fields[0], fields[1], fields[2][..1]))
  }

  /** Splitting a name whose first two fields are separator-free yields those
      two fields followed by the fields of the remainder. */
  lemma SplitTwoFields(a: string, b: string, rest: string)
    requires '_' !in a && '_' !in b
    ensures Split(a + "_" + b + "_" + rest, '_') == [a, b] + Split(rest, '_')
  {
    var tail := Split(rest, '_');
    var r1 := "_" + rest;
    assert r1[0] == '_' && r1[1..] == rest;
    assert Split(r1, '_') == [""] + tail;
    SplitPrefix(b, r1, '_');
    assert b + "" == b;
    var m := b + r1;
    assert Split(m, '_') == [b] + tail;
    var r2 := "_" + m;
    assert r2[0] == '_' && r2[1..] == m;
    assert Split(r2, '_') == [""] + ([b] + tail);
    SplitPrefix(a, r2, '_');
    assert a + "" == a;
    assert a + "_" + b + "_" + rest == a + r2;
  }

  /** Parsing a name built from an object, a person and a remainder recovers
      the object, the person, and the remainder's first character as session. */
  lemma ParseBuiltName(obj: string, person: string, rest: string)
    requires '_' !in obj && '_' !in person
    requires |rest| > 0 && rest[0] != '_'
    ensures ParseName(obj + "_" + person + "_" + rest) == Ok(FileKey(obj, person, rest[..1]))
  {
    var tail := Split(rest, '_');
    assert tail[0][..1] == rest[..1] by {
      assert tail[0] == [rest[0]] + Split(rest[1..], '_')[0];
    }
    SplitTwoFields(obj, person, rest);
  }

  /** A name built from the default object, person and session lists. */
  lemma ParseSessionName()
    ensures ParseName("cube_pedro_3.json") == Ok(FileKey("cube", "pedro", "3"))
  {
    var name := "cube" + "_" + "pedro" + "_" + "3.json";
    ParseBuiltName("cube", "pedro", "3.json");
    assert "3.json"[..1] == "3";
    assert ParseName(name) == Ok(FileKey("cube", "pedro", "3"));
    assert "cube_pedro_3.json" == name;
  }

  /** Only the first character of the third field is the session. */
  lemma ParseLongSession()
    ensures ParseName("x_y_12.json") == Ok(FileKey("x", "y", "1"))
  {
    var name := "x" + "_" + "y" + "_" + "12.json";
    ParseBuiltName("x", "y", "12.json");
    assert "12.json"[..1] == "1";
    assert ParseName(name) == Ok(FileKey("x", "y", "1"));
    assert "x_y_12.json" == name;
  }

  /** A name with only two fields aborts the load. */
  lemma ParseTwoFields(a: string, b: string)
    requires '_' !in a && '_' !in b
    ensures ParseName(a + "_" + b) == Err(FieldMissing(a + "_" + b))
  {
    SplitJoin([a, b], '_');
    assert Join([a, b], '_') == a + "_" + b by {
      assert [a, b][1..] == [b];
    }
  }

  /** An empty third field aborts the load too. */
  lemma ParseEmptySession(a: string, b: string, rest: string)
    requires '_' !in a && '_' !in b
    ensures ParseName(a + "_" + b + "_" + "_" + rest).Err?
  {
    var r := "_" + rest;
    assert r[0] == '_' && r[1..] == rest;
    assert Split(r, '_')[0] == "";
    SplitTwoFields(a, b, r);
    assert a + "_" + b + "_" + "_" + rest == a + "_" + b + "_" + r;
  }

  predicate Selected(key: FileKey, objects: seq<string>, people: seq<string>, sessions: seq<string>)
  {
    key.objectName in objects && key.person in people && key.session in sessions
  }

  /** `objects.index(o)`: the position of the first occurrence. */
  function FirstIndex(xs: seq<string>, x: string): (i: nat)
    requires x in xs
    ensures i < |xs| && xs[i] == x
    ensures forall j :: 0 <= j < i ==> xs[j] != x
    decreases |xs|
  {
    if xs[0] == x then 0 else 1 + FirstIndex(xs[1..], x)
  }

  /** `data[i]["points"]`: present only when the record is a dict holding that key. */
  function PointsOf(record: Json): Option<Json>
  {
    if record.JObject? then Get(record.members, "points") else None
  }

  /** The inner loop over one file's records: one sample per record, in
      record order, all with the file's label. */
  function FileSamples(name: string, data: seq<Json>, index: nat): (r: Result<Samples, LoadError>)
    ensures r.Ok? <==> forall i :: 0 <= i < |data| ==> PointsOf(data[i]).Some?
    ensures r.Err? ==> r.error == NoPoints(name)
    ensures r.Ok? ==>
      && |r.value.points| == |data| && |r.value.labels| == |data|
      && (forall i :: 0 <= i < |data| ==> r.value.points[i] == PointsOf(data[i]).value)
      && (forall i :: 0 <= i < |data| ==> r.value.labels[i] == index)
    decreases |data|
  {
    if |data| == 0 then Ok(NoSamples)
    else
      var rest := FileSamples(name, data[1..], index);
      assert forall i :: 1 <= i < |data| ==> data[i] == data[1..][i - 1];
      match PointsOf(data[0])
      case None => Err(NoPoints(name))
      case Some(p) =>
        if rest.Err? then rest
        else Ok(Samples([p] + rest.value.points, [index] + rest.value.labels))
  }

  /** One file of the listing: its name is parsed first (a bad name raises
      even when the file would not be selected), then the file contributes
      its samples if its object, person and session are all allowed. */
  function LoadFile(name: string, files: map<string, seq<Json>>,
                    objects: seq<string>, people: seq<string>, sessions: seq<string>): (r: Result<Samples, LoadError>)
    ensures ParseName(name).Err? ==> r == Err(FieldMissing(name))
    ensures ParseName(name).Ok? && !Selected(ParseName(name).value, objects, people, sessions) ==> r == Ok(NoSamples)
    ensures ParseName(name).Ok? && Selected(ParseName(name).value, objects, people, sessions) && name !in files ==>
      r == Err(UnreadableFile(name))
    ensures r.Err? ==> r.error.name == name
  {
    match ParseName(name)
    case Err(e) => Err(e)
    case Ok(key) =>
      if !Selected(key, objects, people, sessions) then Ok(NoSamples)
      else if name !in files then Err(UnreadableFile(name))
      else FileSamples(name, files[name], FirstIndex(objects, key.objectName))
  }

  /** Appending one file's samples after the earlier ones; the first exception wins. */
  function Combine(a: Result<Samples, LoadError>, b: Result<Samples, LoadError>): Result<Samples, LoadError>
  {
    if a.Err? then a
    else if b.Err? then b
    else Ok(Samples(a.value.points + b.value.points, a.value.labels + b.value.labels))
  }

  /** Aligned samples whose labels index `objects`. */
  predicate WellLabelled(s: Samples, objects: seq<string>)
  {
    |s.points| == |s.labels| && forall i :: 0 <= i < |s.labels| ==> s.labels[i] < |objects|
  }

  /** The outer loop over the matching file names, in order. */
  function LoadFiles(names: seq<string>, files: map<string, seq<Json>>,
                     objects: seq<string>, people: seq<string>, sessions: seq<string>): (r: Result<Samples, LoadError>)
    ensures r.Ok? ==> WellLabelled(r.value, objects)
    decreases |names|
  {
    if |names| == 0 then Ok(NoSamples)
    else
      var first := LoadFile(names[0], files, objects, people, sessions);
      var rest := LoadFiles(names[1..], files, objects, people, sessions);
      assert first.Ok? ==> WellLabelled(first.value, objects) by {
        if first.Ok? && |first.value.labels| > 0 {
          var key := ParseName(names[0]).value;
          assert Selected(key, objects, people, sessions);
        }
      }
      var r := Combine(first, rest);
      assert r.Ok? ==> WellLabelled(r.value, objects) by {
        if r.Ok? {
          var a, b := first.value, rest.value;
          assert r.value.labels == a.labels + b.labels;
          forall i | 0 <= i < |r.value.labels|
            ensures r.value.labels[i] < |objects|
          {
            if i >= |a.labels| {
              assert r.value.labels[i] == b.labels[i - |a.labels|];
            }
          }
        }
      }
      r
  }

  /** `read_dataset` without `num_samples`: `x` and `y` have equal length and
      every label is a valid index into `objects`. */
  function ReadDataset(listing: seq<Entry>, files: map<string, seq<Json>>,
                       objects: seq<string>, people: seq<string>, sessions: seq<string>): (r: Result<Samples, LoadError>)
    ensures r.Ok? ==> |r.value.points| == |r.value.labels|
    ensures r.Ok? ==> forall i :: 0 <= i < |r.value.labels| ==> r.value.labels[i] < |objects|
  {
    LoadFiles(FilesWithSuffix(listing, ".json"), files, objects, people, sessions)
  }

  // ---- properties -----------------------------------------------------------

  /** What one listed ".json" file adds to the load. A name that does not
      parse aborts the load even if no list could select it, since it is
      parsed before the membership test. A file whose object, person or
      session is not allowed contributes nothing. An allowed file that cannot
      be read aborts the load. An allowed, readable file aborts the load if
      some record has no points; otherwise it contributes one sample per
      record, in order, each labelled with the first index of its object. */
  lemma LoadFileContribution(name: string, files: map<string, seq<Json>>,
                             objects: seq<string>, people: seq<string>, sessions: seq<string>)
    ensures var r := LoadFile(name, files, objects, people, sessions);
      ParseName(name).Err? ==> r == Err(FieldMissing(name))
    ensures ParseName(name).Ok? ==>
      var key := ParseName(name).value;
      var r := LoadFile(name, files, objects, people, sessions);
      && (!Selected(key, objects, people, sessions) ==> r == Ok(NoSamples))
      && (Selected(key, objects, people, sessions) && name !in files ==> r == Err(UnreadableFile(name)))
      && (Selected(key, objects, people, sessions) && name in files
          && (exists i :: 0 <= i < |files[name]| && PointsOf(files[name][i]).None?) ==>
            r == Err(NoPoints(name)))
      && (Selected(key, objects, people, sessions) && name in files
          && (forall i :: 0 <= i < |files[name]| ==> PointsOf(files[name][i]).Some?) ==>
            && r.Ok?
            && |r.value.points| == |files[name]|
            && (forall i :: 0 <= i < |files[name]| ==> r.value.points[i] == PointsOf(files[name][i]).value)
            && (forall i :: 0 <= i < |files[name]| ==>
                  var index := r.value.labels[i];
                  index < |objects| && objects[index] == key.objectName
                  && forall j :: 0 <= j < index ==> objects[j] != key.objectName))
  {
  }

  lemma CombineAssoc(a: Result<Samples, LoadError>, b: Result<Samples, LoadError>, c: Result<Samples, LoadError>)
    ensures Combine(a, Combine(b, c)) == Combine(Combine(a, b), c)
  {
    if a.Ok? && b.Ok? && c.Ok? {
      assert a.value.points + (b.value.points + c.value.points) == (a.value.points + b.value.points) + c.value.points;
      assert a.value.labels + (b.value.labels + c.value.labels) == (a.value.labels + b.value.labels) + c.value.labels;
    }
  }

  lemma {:induction false} LoadFilesAppend(a: seq<string>, b: seq<string>, files: map<string, seq<Json>>,
                                           objects: seq<string>, people: seq<string>, sessions: seq<string>)
    ensures LoadFiles(a + b, files, objects, people, sessions)
         == Combine(LoadFiles(a, files, objects, people, sessions), LoadFiles(b, files, objects, people, sessions))
    decreases |a|
  {
    var rb := LoadFiles(b, files, objects, people, sessions);
    if |a| == 0 {
      assert a + b == b;
      if rb.Ok? {
        assert rb.value.points == [] + rb.value.points;
        assert rb.value.labels == [] + rb.value.labels;
      }
    } else {
      assert (a + b)[0] == a[0];
      assert (a + b)[1..] == a[1..] + b;
      LoadFilesAppend(a[1..], b, files, objects, people, sessions);
      CombineAssoc(LoadFile(a[0], files, objects, people, sessions), LoadFiles(a[1..], files, objects, people, sessions), rb);
    }
  }

  /** Files are read in listing order and each one's samples are contiguous:
      the result for two listings one after the other is the first one's
      samples followed by the second one's, or the first exception raised. */
  lemma ReadDatasetAppend(l1: seq<Entry>, l2: seq<Entry>, files: map<string, seq<Json>>,
                          objects: seq<string>, people: seq<string>, sessions: seq<string>)
    ensures ReadDataset(l1 + l2, files, objects, people, sessions)
         == Combine(ReadDataset(l1, files, objects, people, sessions), ReadDataset(l2, files, objects, people, sessions))
  {
    FilesWithSuffixAppend(l1, l2, ".json");
    LoadFilesAppend(FilesWithSuffix(l1, ".json"), FilesWithSuffix(l2, ".json"), files, objects, people, sessions);
  }

  /** A single listed entry is read only if it is a file ending in ".json". */
  lemma ReadDatasetSingle(e: Entry, files: map<string, seq<Json>>,
                          objects: seq<string>, people: seq<string>, sessions: seq<string>)
    ensures ReadDataset([e], files, objects, people, sessions)
         == if Wanted(e, ".json") then LoadFile(e.name, files, objects, people, sessions) else Ok(NoSamples)
  {
    FilesWithSuffixSingle(e, ".json");
    var names := FilesWithSuffix([e], ".json");
    if Wanted(e, ".json") {
      var first := LoadFile(e.name, files, objects, people, sessions);
      assert names == [e.name];
      assert names[1..] == [];
      assert LoadFiles(names[1..], files, objects, people, sessions) == Ok(NoSamples);
      if first.Ok? {
        assert first.value.points + [] == first.value.points;
        assert first.value.labels + [] == first.value.labels;
        assert Samples(first.value.points + [], first.value.labels + []) == first.value;
      }
    }
  }

  /** The number of records in the selected files: what a complete load returns. */
  function SelectedRecords(names: seq<string>, files: map<string, seq<Json>>,
                           objects: seq<string>, people: seq<string>, sessions: seq<string>): nat
    decreases |names|
  {
    if |names| == 0 then 0
    else
      var n := names[0];
      var count := if ParseName(n).Ok? && Selected(ParseName(n).value, objects, people, sessions) && n in files
                   then |files[n]| else 0;
      count + SelectedRecords(names[1..], files, objects, people, sessions)
  }

  /** Nothing is dropped: a successful load holds one sample for every record
      of every selected file. */
  lemma {:induction false} LoadFilesComplete(names: seq<string>, files: map<string, seq<Json>>,
                                             objects: seq<string>, people: seq<string>, sessions: seq<string>)
    requires LoadFiles(names, files, objects, people, sessions).Ok?
    ensures |LoadFiles(names, files, objects, people, sessions).value.points| == SelectedRecords(names, files, objects, people, sessions)
    decreases |names|
  {
    if |names| > 0 {
      LoadFilesComplete(names[1..], files, objects, people, sessions);
    }
  }

  lemma ReadDatasetComplete(listing: seq<Entry>, files: map<string, seq<Json>>,
                            objects: seq<string>, people: seq<string>, sessions: seq<string>)
    requires ReadDataset(listing, files, objects, people, sessions).Ok?
    ensures |ReadDataset(listing, files, objects, people, sessions).value.points|
         == SelectedRecords(FilesWithSuffix(listing, ".json"), files, objects, people, sessions)
  {
    LoadFilesComplete(FilesWithSuffix(listing, ".json"), files, objects, people, sessions);
  }
}
