/** The analyzer's coordinate store: landmarks parsed from the data files,
    kept per image in a dictionary keyed by name and coordinate texts. */
module Images {
  import opened Base
  import opened Text
  import opened Dicts
  import opened Values

  /** A digitised point; `id` is the key it is stored under in its image. */
  datatype Landmark = Landmark(id: string, name: string, x: real, y: real)

  /** What an image keeps of an evaluated aspect: its id, name and value
      (the aspect is never changed after it is calculated). */
  datatype Evaluated = Evaluated(id: string, name: string, value: Value)

  /** `'%sx%sy%s' % (name, x, y)` over the coordinate texts as read. */
  function LandmarkId(name: string, xText: string, yText: string): string
  {
    name + "x" + xText + "y" + yText
  }

  /** The key separates landmarks of one name whose x texts hold no `y`:
      equal keys mean equal coordinate texts. */
  lemma LandmarkIdInjective(name: string, x1: string, y1: string, x2: string, y2: string)
    requires 'y' !in x1 && 'y' !in x2
    requires LandmarkId(name, x1, y1) == LandmarkId(name, x2, y2)
    ensures x1 == x2 && y1 == y2
  {
    var n := |name| + 1;
    var k1 := LandmarkId(name, x1, y1);
    var k2 := LandmarkId(name, x2, y2);
    assert k1[n..] == x1 + "y" + y1;
    assert k2[n..] == x2 + "y" + y2;
    var w := x1 + ['y'] + y1;
    assert w == x2 + ['y'] + y2;
    SplitAtFirst(x1, 'y', y1);
    SplitAtFirst(x2, 'y', y2);
    assert Split(w, 'y')[0] == x1;
    assert x1 == x2;
    assert y1 == (x1 + "y" + y1)[|x1| + 1..];
    assert y2 == (x2 + "y" + y2)[|x2| + 1..];
  }

  /** `Landmark(name, x, y)`: the key is formed first, then both texts are
      converted with `float()`, which raises ValueError on a non-number. */
  function MakeLandmark(name: string, xText: string, yText: string, host: Host): (r: Result<Landmark>)
    ensures r.Ok? <==> host.toFloat(xText).Some? && host.toFloat(yText).Some?
    ensures r.Ok? ==> r.value.id == LandmarkId(name, xText, yText) && r.value.name == name
  {
    match host.toFloat(xText)
    case None => Err(ValueError)
    case Some(x) =>
      match host.toFloat(yText)
      case None => Err(ValueError)
      case Some(y) => Ok(Landmark(LandmarkId(name, xText, yText), name, x, y))
  }

  /** One image of the batch, with the landmarks read for it and the aspects
      evaluated on it. */
  class Image {
    const filename: string
    var landmarks: Dict<string, Landmark>
    var aspects: Dict<string, Evaluated>

    /** Each landmark and aspect is stored under its own id. */
    ghost predicate Valid()
      reads this
    {
      && KeyedByID(landmarks)
      && aspects.Valid()
      && (forall k :: k in aspects.m ==> aspects.m[k].id == k)
    }

    constructor (filename: string)
      ensures Valid()
      ensures this.filename == filename
      ensures landmarks == Empty() && aspects == Empty()
    {
      this.filename := filename;
      landmarks := Empty();
      aspects := Empty();
    }

    /** `self.landmarks[landmark.id] = landmark`. */
    method AddLandmark(landmark: Landmark)
      requires Valid()
      modifies this`landmarks
      ensures Valid()
      ensures landmarks == old(landmarks).Put(landmark.id, landmark)
    {
      PutValid(landmarks, landmark.id, landmark);
      landmarks := landmarks.Put(landmark.id, landmark);
    }

    /** `self.aspects[aspect.id] = aspect`. */
    method AddAspect(aspect: Evaluated)
      requires Valid()
      modifies this`aspects
      ensures Valid()
      ensures aspects == old(aspects).Put(aspect.id, aspect)
    {
      PutValid(aspects, aspect.id, aspect);
      aspects := aspects.Put(aspect.id, aspect);
    }
  }

  /** The fields of a data line `filename:landmark\tx\ty`. */
  datatype DataRecord = DataRecord(filename: string, landmark: string, xText: string, yText: string)

  /** `parse_data_line`: the image name is the text before the first `:` of
      the first tab field, the landmark name the next `:` piece with spaces
      stripped; x and y are the next two tab fields, untouched. A first tab
      field without `:` or fewer than three tab fields raise IndexError. */
  function ParseDataLine(line: string): (r: Result<DataRecord>)
    ensures r.Ok? <==> |Split(line, '\t')| >= 3 && ':' in Split(line, '\t')[0]
  {
    var fields := Split(line, '\t');
    var names := Split(fields[0], ':');
    SplitHasSep(fields[0], ':');
    if |names| < 2 || |fields| < 3 then Err(IndexError)
    else Ok(DataRecord(names[0], Strip(names[1], ' '), fields[1], fields[2]))
  }

  /** A line written as `filename:landmark\tx\ty` reads back as those four
      fields, with the landmark name stripped of surrounding spaces. */
  lemma ParseDataLineReads(filename: string, landmark: string, xText: string, yText: string)
    requires ':' !in filename && '\t' !in filename
    requires ':' !in landmark && '\t' !in landmark
    requires '\t' !in xText && '\t' !in yText
    ensures ParseDataLine(filename + ":" + landmark + "\t" + xText + "\t" + yText)
         == Ok(DataRecord(filename, Strip(landmark, ' '), xText, yText))
  {
    var head := filename + ":" + landmark;
    var line := head + "\t" + xText + "\t" + yText;
    assert '\t' !in head;
    assert line == head + ['\t'] + (xText + ['\t'] + yText);
    SplitAtFirst(head, '\t', xText + ['\t'] + yText);
    SplitAtFirst(xText, '\t', yText);
    SplitNoSep(yText, '\t');
    assert head == filename + [':'] + landmark;
    SplitAtFirst(filename, ':', landmark);
    SplitNoSep(landmark, ':');
  }

  /** The landmarks of each image, keyed as the images dictionary is. */
  type Store = Dict<string, Dict<string, Landmark>>

  /** An image's landmarks, each under its own key. */
  ghost predicate KeyedByID(d: Dict<string, Landmark>)
  {
    d.Valid() && forall k :: k in d.m ==> d.m[k].id == k
  }

  ghost predicate StoreValid(s: Store)
  {
    s.Valid() && forall f :: f in s.m ==> KeyedByID(s.m[f])
  }

  /** The lines of the data files, file after file. */
  function Flatten(files: seq<seq<string>>): seq<string>
  {
    if files == [] then [] else Flatten(files[..|files| - 1]) + files[|files| - 1]
  }

  /** Adds the landmark of one record to the store, creating the image on
      the first mention of its file name. */
  function Record(s: Store, filename: string, landmark: Landmark): (r: Store)
    ensures filename in r.m && r.m == s.m[filename := r.m[filename]]
    ensures r.m[filename].m == (if filename in s.m then s.m[filename].m else map[])[landmark.id := landmark]
  {
    var image: Dict<string, Landmark> := if filename in s.m then s.m[filename] else Empty();
    s.Put(filename, image.Put(landmark.id, landmark))
  }

  /** The image name and the landmark one data line yields. */
  function ReadLine(line: string, host: Host): Result<(string, Landmark)>
  {
    var rec :- ParseDataLine(line);
    var landmark :- MakeLandmark(rec.landmark, rec.xText, rec.yText, host);
    Ok((rec.filename, landmark))
  }

  /** Reads the lines in order with `read`; the first line that fails
      stops the read. */
  function ReadAll<R>(lines: seq<string>, read: string -> Result<R>): (r: Result<seq<R>>)
    ensures r.Ok? ==> |r.value| == |lines|
  {
    if lines == [] then Ok([])
    else
      var done :- ReadAll(lines[..|lines| - 1], read);
      var last :- read(lines[|lines| - 1]);
      Ok(done + [last])
  }

  /** The read succeeds exactly when every line does. */
  lemma {:induction false} ReadAllOk<R>(lines: seq<string>, read: string -> Result<R>)
    ensures ReadAll(lines, read).Ok? <==> forall i :: 0 <= i < |lines| ==> read(lines[i]).Ok?
    decreases |lines|
  {
    if lines != [] {
      var n := |lines| - 1;
      ReadAllOk(lines[..n], read);
      assert forall i :: 0 <= i < n ==> lines[..n][i] == lines[i];
    }
  }

  /** A successful read holds what each line reads as, in line order. */
  lemma {:induction false} ReadAllLines<R>(lines: seq<string>, read: string -> Result<R>, i: nat)
    requires ReadAll(lines, read).Ok? && i < |lines|
    ensures read(lines[i]) == Ok(ReadAll(lines, read).value[i])
    decreases |lines|
  {
    var n := |lines| - 1;
    if i < n {
      ReadAllLines(lines[..n], read, i);
      assert lines[..n][i] == lines[i];
    }
  }

  /** An error on some line aborts the whole read. */
  lemma {:induction false} ReadErrorSticks<R>(lines: seq<string>, read: string -> Result<R>, k: nat)
    requires k <= |lines| && ReadAll(lines[..k], read).Err?
    ensures ReadAll(lines, read).Err?
    decreases |lines| - k
  {
    if k < |lines| {
      assert lines[..k + 1][..k] == lines[..k];
      ReadErrorSticks(lines, read, k + 1);
    } else {
      assert lines[..k] == lines;
    }
  }

  /** An error in the lines read so far aborts the read of any continuation. */
  lemma ReadErrorPrefix<R>(done: seq<string>, lines: seq<string>, read: string -> Result<R>)
    requires done <= lines && ReadAll(done, read).Err?
    ensures ReadAll(lines, read).Err?
  {
    assert lines[..|done|] == done;
    ReadErrorSticks(lines, read, |done|);
  }

  /** One more file read: its lines follow those of the files before it. */
  lemma FlattenStep(files: seq<seq<string>>, k: nat)
    requires k < |files|
    ensures Flatten(files[..k + 1]) == Flatten(files[..k]) + files[k]
  {
    assert files[..k + 1][..k] == files[..k];
  }

  /** The lines of the first files come first. */
  lemma {:induction false} FlattenPrefix(files: seq<seq<string>>, k: nat)
    requires k <= |files|
    ensures Flatten(files[..k]) <= Flatten(files)
    decreases |files|
  {
    if k < |files| {
      var n := |files| - 1;
      FlattenPrefix(files[..n], k);
      assert files[..n][..k] == files[..k];
    } else {
      assert files[..k] == files;
    }
  }

  /** Reads one data line of the run's host. */
  function Reader(host: Host): string -> Result<(string, Landmark)>
  {
    line => ReadLine(line, host)
  }

  /** What `parse_data` files from the records read so far, in order. */
  function Build(records: seq<(string, Landmark)>): Store
  {
    if records == [] then Empty()
    else
      var (f, lm) := records[|records| - 1];
      Record(Build(records[..|records| - 1]), f, lm)
  }

  /** Filing a record keeps every landmark under its own key. */
  lemma RecordValid(s: Store, filename: string, landmark: Landmark)
    requires StoreValid(s)
    ensures StoreValid(Record(s, filename, landmark))
  {
    var image: Dict<string, Landmark> := if filename in s.m then s.m[filename] else Empty();
    PutValid(image, landmark.id, landmark);
    PutValid(s, filename, image.Put(landmark.id, landmark));
  }

  /** Every image of the store keeps its landmarks under their own keys. */
  lemma {:induction false} BuildValid(records: seq<(string, Landmark)>)
    ensures StoreValid(Build(records))
    decreases |records|
  {
    if records != [] {
      BuildStep(records);
      BuildValid(records[..|records| - 1]);
      RecordValid(Build(records[..|records| - 1]), records[|records| - 1].0, records[|records| - 1].1);
    }
  }

  /** The store holds an image exactly for the file names the records name. */
  lemma {:induction false} BuildImages(records: seq<(string, Landmark)>, f: string)
    ensures f in Build(records).m <==> exists i :: 0 <= i < |records| && records[i].0 == f
    decreases |records|
  {
    if records != [] {
      var n := |records| - 1;
      var init, last := records[..n], records[n];
      BuildStep(records);
      var before := Build(init);
      assert Build(records) == Record(before, last.0, last.1);
      assert f in Build(records).m <==> f in before.m || f == last.0;
      BuildImages(init, f);
      NamedSplit(records, init, f);
    }
  }

  lemma NamedSplit(records: seq<(string, Landmark)>, init: seq<(string, Landmark)>, f: string)
    requires records != [] && init == records[..|records| - 1]
    ensures (exists i :: 0 <= i < |records| && records[i].0 == f) <==>
      (exists i :: 0 <= i < |init| && init[i].0 == f) || records[|records| - 1].0 == f
  {
    if exists i :: 0 <= i < |records| && records[i].0 == f {
      var i :| 0 <= i < |records| && records[i].0 == f;
      if i < |init| {
        assert init[i].0 == f;
      }
    }
    if exists i :: 0 <= i < |init| && init[i].0 == f {
      var i :| 0 <= i < |init| && init[i].0 == f;
      assert records[i].0 == f;
    }
  }

  /** Record `j` is for the same image and key as record `i`. */
  predicate SameKey(a: (string, Landmark), b: (string, Landmark))
  {
    a.0 == b.0 && a.1.id == b.1.id
  }

  /** Every record's landmark is in its image under its own key: nothing
      read is lost. */
  lemma {:induction false} BuildKeepsLandmarks(records: seq<(string, Landmark)>, i: nat)
    requires i < |records|
    ensures records[i].0 in Build(records).m && records[i].1.id in Build(records).m[records[i].0].m
    decreases |records|
  {
    var n := |records| - 1;
    var init, last := records[..n], records[n];
    var before := Build(init);
    BuildStep(records);
    if i < n {
      BuildKeepsLandmarks(init, i);
      assert init[i] == records[i];
      RecordKeepsKey(before, last.0, last.1, records[i].0, records[i].1.id);
    } else {
      RecordHas(before, last.0, last.1);
    }
  }

  /** Filing a record keeps every landmark already filed. */
  lemma RecordKeepsKey(s: Store, filename: string, landmark: Landmark, f: string, id: string)
    requires f in s.m && id in s.m[f].m
    ensures f in Record(s, filename, landmark).m && id in Record(s, filename, landmark).m[f].m
  {
  }

  /** The landmark filed is in its image under its key. */
  lemma RecordHas(s: Store, filename: string, landmark: Landmark)
    ensures filename in Record(s, filename, landmark).m && landmark.id in Record(s, filename, landmark).m[filename].m
  {
  }

  /** The last record with a given image and key is the landmark stored
      there: a later record overwrites only an equal key. */
  lemma {:induction false} BuildLastWins(records: seq<(string, Landmark)>, i: nat)
    requires i < |records|
    requires forall j :: i < j < |records| ==> !SameKey(records[i], records[j])
    ensures records[i].0 in Build(records).m && records[i].1.id in Build(records).m[records[i].0].m
    ensures Build(records).m[records[i].0].m[records[i].1.id] == records[i].1
    decreases |records|
  {
    var n := |records| - 1;
    var f, lm := records[i].0, records[i].1;
    var prefix := records[..n];
    var before := Build(prefix);
    BuildStep(records);
    var after := Record(before, records[n].0, records[n].1);
    assert Build(records) == after;
    if i == n {
      assert after.m[f].m == (if f in before.m then before.m[f].m else map[])[lm.id := lm];
    } else {
      assert prefix[i] == records[i];
      forall j | i < j < n
        ensures !SameKey(prefix[i], prefix[j])
      {
        assert prefix[j] == records[j];
      }
      BuildLastWins(prefix, i);
      assert before.m[f].m[lm.id] == lm;
      assert !SameKey(records[i], records[n]);
      RecordKeeps(before, records[n].0, records[n].1, f, lm);
    }
  }

  /** Filing a record leaves every landmark of another key where it was. */
  lemma RecordKeeps(s: Store, g: string, other: Landmark, f: string, lm: Landmark)
    requires f in s.m && lm.id in s.m[f].m && s.m[f].m[lm.id] == lm
    requires g != f || other.id != lm.id
    ensures f in Record(s, g, other).m && lm.id in Record(s, g, other).m[f].m
    ensures Record(s, g, other).m[f].m[lm.id] == lm
  {
    var r := Record(s, g, other);
    if g == f {
      assert r.m[f].m == s.m[f].m[other.id := other];
    } else {
      assert r.m[f] == s.m[f];
    }
  }

  /** The store after a record is the store before it with that record filed. */
  lemma BuildStep(records: seq<(string, Landmark)>)
    requires records != []
    ensures Build(records) == Record(Build(records[..|records| - 1]), records[|records| - 1].0, records[|records| - 1].1)
  {
  }

  /** Two landmarks filed for one image under different keys are both kept;
      one name at two coordinate texts (x texts without `y`) gives two keys. */
  lemma DistinctPlacesKept(records: seq<(string, Landmark)>, i: nat, j: nat,
                           name: string, x1: string, y1: string, x2: string, y2: string)
    requires i < j < |records| && records[i].0 == records[j].0
    requires records[i].1.id == LandmarkId(name, x1, y1)
    requires records[j].1.id == LandmarkId(name, x2, y2)
    requires 'y' !in x1 && 'y' !in x2 && (x1 != x2 || y1 != y2)
    ensures records[i].0 in Build(records).m
    ensures records[i].1.id != records[j].1.id
    ensures records[i].1.id in Build(records).m[records[i].0].m
    ensures records[j].1.id in Build(records).m[records[i].0].m
  {
    BuildKeepsLandmarks(records, i);
    BuildKeepsLandmarks(records, j);
    if records[i].1.id == records[j].1.id {
      LandmarkIdInjective(name, x1, y1, x2, y2);
    }
  }

  /** Each image is valid and named by its key, so distinct file names name
      distinct image objects. */
  ghost predicate ImagesValid(images: Dict<string, Image>)
    reads images.m.Values
  {
    && images.Valid()
    && NamedByKey(images)
    && (forall f :: f in images.m ==> images.m[f].Valid())
  }

  predicate NamedByKey(images: Dict<string, Image>)
  {
    forall f :: f in images.m ==> images.m[f].filename == f
  }

  /** The landmarks the image objects hold, as a store. */
  ghost function Contents(images: Dict<string, Image>): Store
    reads images.m.Values
  {
    Dict(images.keys, map f | f in images.m :: images.m[f].landmarks)
  }

  lemma MapsAgree<K, V>(a: map<K, V>, b: map<K, V>)
    requires a.Keys == b.Keys && forall k :: k in a ==> a[k] == b[k]
    ensures a == b
  {
  }

  /** Filing an image object under a key stores its landmarks there. */
  lemma ContentsPut(images: Dict<string, Image>, filename: string, image: Image)
    ensures Contents(images.Put(filename, image)) == Contents(images).Put(filename, image.landmarks)
  {
  }

  /** `image.add_landmark(landmark)` on an image of the dictionary: only
      that image's entry of the store changes. */
  method AddTo(images: Dict<string, Image>, image: Image, landmark: Landmark)
    requires ImagesValid(images) && image.filename in images.m && images.m[image.filename] == image
    modifies image
    ensures ImagesValid(images)
    ensures image.landmarks == old(image.landmarks).Put(landmark.id, landmark)
    ensures Contents(images) == old(Contents(images)).Put(image.filename, image.landmarks)
  {
    ghost var before := Contents(images);
    image.AddLandmark(landmark);
    ghost var after := Contents(images);
    assert NamedByKey(images);
    forall f | f in images.m && f != image.filename
      ensures images.m[f].Valid() && after.m[f] == before.m[f]
    {
      assert images.m[f] != image;
    }
    MapsAgree(after.m, before.m[image.filename := image.landmarks]);
  }

  /** `images[filename]`, or a new image filed under `filename` when there
      is none yet. */
  method ImageFor(images: Dict<string, Image>, filename: string) returns (updated: Dict<string, Image>, image: Image)
    requires ImagesValid(images)
    ensures ImagesValid(updated) && filename in updated.m && updated.m[filename] == image
    ensures forall f :: f in updated.m ==> (f in images.m && updated.m[f] == images.m[f]) || fresh(updated.m[f])
    ensures image.landmarks == if filename in images.m then images.m[filename].landmarks else Empty()
    ensures Contents(updated) == Contents(images).Put(filename, image.landmarks)
  {
    if filename in images.m {
      image := images.m[filename];
      updated := images;
      PutSame(images, filename);
      ContentsPut(images, filename, image);
      return;
    }
    image := new Image(filename);
    updated := images.Put(filename, image);
    ImagesValidPut(images, image);
    ContentsPut(images, filename, image);
  }

  /** Filing a valid image under its own name keeps the dictionary valid. */
  lemma ImagesValidPut(images: Dict<string, Image>, image: Image)
    requires ImagesValid(images) && image.Valid()
    ensures ImagesValid(images.Put(image.filename, image))
  {
    PutValid(images, image.filename, image);
  }

  /** The body of `parse_data`'s inner loop once the line is read: files the
      landmark under its image, creating the image on the first mention of
      its file name. */
  method FileLandmark(images: Dict<string, Image>, filename: string, landmark: Landmark) returns (updated: Dict<string, Image>)
    requires ImagesValid(images)
    modifies images.m.Values
    ensures ImagesValid(updated)
    ensures forall f :: f in updated.m ==> (f in images.m && updated.m[f] == images.m[f]) || fresh(updated.m[f])
    ensures Contents(updated) == Record(old(Contents(images)), filename, landmark)
  {
    ghost var s := Contents(images);
    var image: Image;
    updated, image := ImageFor(images, filename);
    ghost var before := image.landmarks;
    AddTo(updated, image, landmark);
    PutTwice(s, filename, before, image.landmarks);
  }

  /** Reading one more line: the read goes on only when that line reads. */
  lemma ReadAllSnoc<R>(done: seq<string>, line: string, read: string -> Result<R>)
    requires ReadAll(done, read).Ok?
    ensures read(line).Err? ==> ReadAll(done + [line], read).Err?
    ensures read(line).Ok? ==> ReadAll(done + [line], read) == Ok(ReadAll(done, read).value + [read(line).value])
  {
    assert (done + [line])[..|done|] == done;
  }

  /** Taking one more of the lines after `done`. */
  lemma TakeOneMore<T>(done: seq<T>, lines: seq<T>, i: nat)
    requires i < |lines|
    ensures done + lines[..i + 1] == (done + lines[..i]) + [lines[i]]
    ensures done + lines[..i + 1] <= done + lines
  {
    assert lines[..i + 1] == lines[..i] + [lines[i]];
  }

  /** Filing one more record. */
  lemma BuildSnoc(records: seq<(string, Landmark)>, last: (string, Landmark))
    ensures Build(records + [last]) == Record(Build(records), last.0, last.1)
  {
    assert (records + [last])[..|records|] == records;
  }

  /** `images` holds what reading `lines` files: the lines all read, and
      the images hold the landmarks of those records. */
  ghost predicate Loaded(images: Dict<string, Image>, lines: seq<string>, host: Host)
    reads images.m.Values
  {
    && ImagesValid(images)
    && ReadAll(lines, Reader(host)).Ok?
    && Build(ReadAll(lines, Reader(host)).value) == Contents(images)
  }

  /** One pass of `parse_data`'s inner loop, after the lines `done`. */
  method ReadLineInto(images: Dict<string, Image>, ghost done: seq<string>, line: string, host: Host)
    returns (r: Result<Dict<string, Image>>)
    requires Loaded(images, done, host)
    modifies images.m.Values
    ensures r.Ok? <==> ReadAll(done + [line], Reader(host)).Ok?
    ensures r.Ok? ==> Loaded(r.value, done + [line], host)
    ensures r.Ok? ==> forall f :: f in r.value.m ==> (f in images.m && r.value.m[f] == images.m[f]) || fresh(r.value.m[f])
  {
    ReadAllSnoc(done, line, Reader(host));
    var read := ReadLine(line, host);
    assert Reader(host)(line) == read;
    if read.Err? {
      return Err(read.error);
    }
    BuildSnoc(ReadAll(done, Reader(host)).value, read.value);
    var filed := FileLandmark(images, read.value.0, read.value.1);
    r := Ok(filed);
  }

  /** Reading line `li` of a file, after the lines `done` of the files
      before it: an error there ends the read of the whole input. */
  method ReadStep(images: Dict<string, Image>, ghost done: seq<string>, lines: seq<string>, li: nat, host: Host)
    returns (r: Result<Dict<string, Image>>)
    requires li < |lines| && Loaded(images, done + lines[..li], host)
    modifies images.m.Values
    ensures r.Err? ==> ReadAll(done + lines, Reader(host)).Err?
    ensures r.Ok? ==> Loaded(r.value, done + lines[..li + 1], host)
    ensures r.Ok? ==> forall f :: f in r.value.m ==> (f in images.m && r.value.m[f] == images.m[f]) || fresh(r.value.m[f])
  {
    TakeOneMore(done, lines, li);
    r := ReadLineInto(images, done + lines[..li], lines[li], host);
    if r.Err? {
      ReadErrorPrefix(done + lines[..li + 1], done + lines, Reader(host));
    }
  }

  /** The inner loop of `parse_data` over the lines of one file, after the
      lines `done` of the files before it. */
  method ReadLines(images: Dict<string, Image>, ghost done: seq<string>, lines: seq<string>, host: Host)
    returns (r: Result<Dict<string, Image>>)
    requires Loaded(images, done, host)
    modifies images.m.Values
    ensures r.Ok? <==> ReadAll(done + lines, Reader(host)).Ok?
    ensures r.Ok? ==> Loaded(r.value, done + lines, host)
    ensures r.Ok? ==> forall f :: f in r.value.m ==> (f in images.m && r.value.m[f] == images.m[f]) || fresh(r.value.m[f])
  {
    var current := images;
    assert done + lines[..0] == done;
    for li := 0 to |lines|
      invariant Loaded(current, done + lines[..li], host)
      invariant forall f :: f in current.m ==> (f in images.m && current.m[f] == images.m[f]) || fresh(current.m[f])
    {
      var read := ReadStep(current, done, lines, li, host);
      if read.Err? {
        return read;
      }
      current := read.value;
    }
    assert lines[..|lines|] == lines;
    r := Ok(current);
  }

  /** `parse_data`: reads every line of every file in order and files its
      landmark under its image, creating the image on first mention. */
  method ParseData(files: seq<seq<string>>, host: Host) returns (r: Result<Dict<string, Image>>)
    ensures r.Ok? <==> ReadAll(Flatten(files), Reader(host)).Ok?
    ensures r.Ok? ==> ImagesValid(r.value) && forall f :: f in r.value.m ==> fresh(r.value.m[f])
    ensures r.Ok? ==> Contents(r.value) == Build(ReadAll(Flatten(files), Reader(host)).value)
  {
    var images: Dict<string, Image> := Empty();
    for fi := 0 to |files|
      invariant Loaded(images, Flatten(files[..fi]), host)
      invariant forall f :: f in images.m ==> fresh(images.m[f])
    {
      FlattenStep(files, fi);
      var read := ReadLines(images, Flatten(files[..fi]), files[fi], host);
      if read.Err? {
        FlattenPrefix(files, fi + 1);
        ReadErrorPrefix(Flatten(files[..fi + 1]), Flatten(files), Reader(host));
        return Err(read.error);
      }
      images := read.value;
    }
    assert files[..|files|] == files;
    r := Ok(images);
  }
}
