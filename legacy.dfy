/** The earlier script `WormBox_.py`: every aspect is a chain of landmarks
    whose length is measured on each image; aspects that share a name are
    pseudoreplicates and are reported by their mean. */
module Legacy {
  import opened Base
  import opened Text
  import opened Dicts
  import opened Values
  import Stats
  import Images
  import Config

  /** A digitised point: its name and its coordinates as `float()` read them. */
  datatype Landmark = Landmark(name: string, x: real, y: real)

  /* ---------- distances ---------- */

  /** `get_distance`: the Euclidean distance of two landmarks. */
  function Distance(a: Landmark, b: Landmark, host: Host): real
  {
    host.sqrt((a.x - b.x) * (a.x - b.x) + (a.y - b.y) * (a.y - b.y))
  }

  /** The distance is symmetric, and never negative when `sqrt` is the
      real square root; from a landmark to itself it is `sqrt(0.0)`. */
  lemma DistanceMetric(a: Landmark, b: Landmark, host: Host)
    requires ExactSqrt(host)
    ensures Distance(a, b, host) == Distance(b, a, host)
    ensures Distance(a, b, host) >= 0.0
    ensures Distance(a, a, host) == host.sqrt(0.0)
  {
    var dx, dy := a.x - b.x, a.y - b.y;
    assert (b.x - a.x) * (b.x - a.x) == dx * dx;
    assert (b.y - a.y) * (b.y - a.y) == dy * dy;
    assert dx * dx >= 0.0 && dy * dy >= 0.0;
    assert (a.x - a.x) * (a.x - a.x) + (a.y - a.y) * (a.y - a.y) == 0.0;
  }

  /** The distances between consecutive landmarks of a set. */
  function Predistances(lms: seq<Landmark>, host: Host): (r: seq<Num>)
    ensures |r| == (if |lms| < 2 then 0 else |lms| - 1)
  {
    if |lms| < 2 then []
    else seq(|lms| - 1, i requires 0 <= i < |lms| - 1 => Float(Distance(lms[i], lms[i + 1], host)))
  }

  /** `get_predistance`: the length of the chain through the set, `sum` of
      the consecutive distances (the int 0 for fewer than two landmarks). */
  function Predistance(lms: seq<Landmark>, host: Host): Num
  {
    SumNums(Predistances(lms, host))
  }

  /** The loop of `get_predistance`: landmark `i` is paired with landmark
      `i + 1` as long as `i + 2 <= n`. */
  method GetPredistance(lmSet: seq<Landmark>, host: Host) returns (r: Num)
    ensures r == Predistance(lmSet, host)
  {
    var predistances: seq<Num> := [];
    var n := |lmSet|;
    for i := 0 to n
      invariant |predistances| == (if n == 0 then 0 else if i < n then i else n - 1)
      invariant forall k :: 0 <= k < |predistances| ==> predistances[k] == Float(Distance(lmSet[k], lmSet[k + 1], host))
    {
      if !(i + 2 > n) {
        predistances := predistances + [Float(Distance(lmSet[i], lmSet[i + 1], host))];
      }
    }
    assert predistances == Predistances(lmSet, host);
    return SumNums(predistances);
  }

  /** A set of fewer than two landmarks measures the int 0. */
  lemma PredistanceShort(lms: seq<Landmark>, host: Host)
    requires |lms| < 2
    ensures Predistance(lms, host) == Int(0)
  {
  }

  /** Extending the chain by one landmark adds the distance to it. */
  lemma PredistanceSnoc(lms: seq<Landmark>, p: Landmark, host: Host)
    requires |lms| >= 1
    ensures Predistance(lms + [p], host).Real()
         == Predistance(lms, host).Real() + Distance(lms[|lms| - 1], p, host)
  {
    var xs := Predistances(lms, host);
    var ys := Predistances(lms + [p], host);
    var d := Float(Distance(lms[|lms| - 1], p, host));
    assert ys == xs + [d];
    assert Reals(ys)[..|xs|] == Reals(xs);
  }

  /** A chain is never shorter than zero. */
  lemma PredistanceNonNegative(lms: seq<Landmark>, host: Host)
    requires ExactSqrt(host)
    ensures Predistance(lms, host).Real() >= 0.0
  {
    var rs := Reals(Predistances(lms, host));
    forall i | 0 <= i < |rs|
      ensures 0.0 <= rs[i]
    {
      DistanceMetric(lms[i], lms[i + 1], host);
    }
    SumBounds(rs, 0.0, Stats.SumOfPositives(rs));
  }

  /* ---------- the standard deviation ---------- */

  /** `get_sd`: the population standard deviation, the square root of the
      mean squared deviation from the mean. */
  function Sd(xs: seq<Num>, host: Host): real
    requires |xs| >= 1
  {
    var n := |xs| as real;
    var mean := SumNums(xs).Real() / n;
    host.sqrt(Sum(Stats.Squares(xs, mean)) / n)
  }

  method GetSd(distances: seq<Num>, host: Host) returns (sd: real)
    requires |distances| >= 1
    ensures sd == Sd(distances, host)
  {
    var n := |distances|;
    var mean := SumNums(distances).Real() / n as real;
    var sums := Stats.SquaredDeviations(distances, mean);
    sd := host.sqrt(Sum(sums) / n as real);
  }

  /** The standard deviation is never negative. */
  lemma SdNonNegative(xs: seq<Num>, host: Host)
    requires |xs| >= 1 && ExactSqrt(host)
    ensures Sd(xs, host) >= 0.0
  {
    var n := |xs| as real;
    var mean := SumNums(xs).Real() / n;
    Stats.SquaresNonNegative(xs, mean);
    var v := Sum(Stats.Squares(xs, mean));
    assert v / n >= 0.0;
  }

  /** Values that are all equal have standard deviation `sqrt(0.0)`. */
  lemma SdConstant(xs: seq<Num>, host: Host)
    requires |xs| >= 1
    requires forall i :: 0 <= i < |xs| ==> xs[i].Real() == xs[0].Real()
    ensures Sd(xs, host) == host.sqrt(0.0)
  {
    var n := |xs| as real;
    var c := xs[0].Real();
    MeanOfConstant(xs, c);
    var sq := Stats.Squares(xs, c);
    SquaresAtMean(xs, c);
    SumZeros(sq);
    ZeroOver(Sum(sq), n);
  }

  /** The mean of values that all equal `c` is `c`. */
  lemma MeanOfConstant(xs: seq<Num>, c: real)
    requires |xs| >= 1
    requires forall i :: 0 <= i < |xs| ==> xs[i].Real() == c
    ensures SumNums(xs).Real() / |xs| as real == c
  {
    MeanBetween(xs, c, c);
  }

  /** Every deviation from the common value is zero. */
  lemma SquaresAtMean(xs: seq<Num>, c: real)
    requires forall i :: 0 <= i < |xs| ==> xs[i].Real() == c
    ensures forall i :: 0 <= i < |xs| ==> Stats.Squares(xs, c)[i] == 0.0
  {
  }

  lemma {:induction false} SumZeros(xs: seq<real>)
    requires forall i :: 0 <= i < |xs| ==> xs[i] == 0.0
    ensures Sum(xs) == 0.0
    decreases |xs|
  {
    if xs != [] {
      SumZeros(xs[..|xs| - 1]);
    }
  }

  lemma ZeroOver(t: real, n: real)
    requires t == 0.0 && n > 0.0
    ensures t / n == 0.0
  {
  }

  /* ---------- aspects ---------- */

  /** As written, line 15 names an aspect `id.split(',')[0]`: an aspect
      `side:1,2` is named `side:1`. */
  function NameAsWritten(id: string): string
  {
    Split(id, ',')[0]
  }

  /** As written, a config line's id `name:lm1,lm2,...` is named after the
      aspect name and its first landmark name. */
  lemma NameAsWrittenOfId(name: string, names: seq<string>)
    requires ',' !in name && |names| >= 1
    requires forall i :: 0 <= i < |names| ==> ',' !in names[i]
    ensures NameAsWritten(name + ":" + Join(names, ',')) == name + ":" + names[0]
  {
    var head := name + ":" + names[0];
    assert ',' !in head by {
      assert ',' !in ":";
    }
    if |names| == 1 {
      assert name + ":" + Join(names, ',') == head;
      SplitNoSep(head, ',');
    } else {
      JoinFirst(name, names);
      SplitAtFirst(head, ',', Join(names[1..], ','));
    }
  }

  lemma JoinFirst(name: string, names: seq<string>)
    requires |names| >= 2
    ensures name + ":" + Join(names, ',') == name + ":" + names[0] + [','] + Join(names[1..], ',')
  {
  }

  /** As written, the two `side` lines of the config example get two
      different names, so the pseudoreplicate grouping never joins them. */
  lemma SidesApartAsWritten()
    ensures NameAsWritten("side:1,2") == "side:1"
    ensures NameAsWritten("side:5,4") == "side:5"
  {
    SideApartAsWritten('1', '2');
    SideApartAsWritten('5', '4');
    assert "side:" + ['1', ',', '2'] == "side:1,2";
    assert "side:" + ['5', ',', '4'] == "side:5,4";
  }

  lemma SideApartAsWritten(a: char, b: char)
    requires a != ',' && b != ','
    ensures NameAsWritten("side:" + [a, ',', b]) == "side:" + [a]
  {
    SideId([a], [b]);
    assert "side:" + [a] + "," + [b] == "side:" + [a, ',', b];
    NameAsWrittenOfId("side", [[a], [b]]);
  }

  /** The id of a `side` line with two one-character landmark names. */
  lemma SideId(a: string, b: string)
    requires |a| == 1 && |b| == 1
    ensures "side" + ":" + Join([a, b], ',') == "side:" + a + "," + b
  {
    assert Join([b], ',') == b;
    assert [a, b][1..] == [b];
  }

  /** The aspect name, `id.split(':')[0]`, as `parse_config_line` of the
      later analyzer takes it: what the grouping of pseudoreplicates needs. */
  function NameOf(id: string): string
  {
    Split(id, ':')[0]
  }

  /** A config line's id `name:lm1,lm2,...` is named by its aspect name. */
  lemma NameOfId(name: string, names: seq<string>)
    requires ':' !in name
    ensures NameOf(name + ":" + Join(names, ',')) == name
  {
    SplitAtFirst(name, ':', Join(names, ','));
  }

  /** Both `side` lines of the config example are named `side`. */
  lemma SidesTogether()
    ensures NameOf("side:1,2") == NameOf("side:5,4") == "side"
  {
    SideTogether('1', '2');
    SideTogether('5', '4');
    assert "side:" + ['1', ',', '2'] == "side:1,2";
    assert "side:" + ['5', ',', '4'] == "side:5,4";
  }

  lemma SideTogether(a: char, b: char)
    ensures NameOf("side:" + [a, ',', b]) == "side"
  {
    SideId([a], [b]);
    assert "side:" + [a] + "," + [b] == "side:" + [a, ',', b];
    NameOfId("side", [[a], [b]]);
  }


  /** The lengths of the aspect's chain on each image. */
  function Distances(sets: seq<seq<Landmark>>, host: Host): (r: seq<Num>)
    ensures |r| == |sets| && forall i :: 0 <= i < |sets| ==> r[i] == Predistance(sets[i], host)
  {
    seq(|sets|, i requires 0 <= i < |sets| => Predistance(sets[i], host))
  }

  /** The loop of `calculate` that lists the chain length on each image. */
  method ChainLengths(sets: seq<seq<Landmark>>, host: Host) returns (distances: seq<Num>)
    ensures distances == Distances(sets, host)
  {
    distances := [];
    for i := 0 to |sets|
      invariant distances == Distances(sets[..i], host)
    {
      var predistance := GetPredistance(sets[i], host);
      DistancesSnoc(sets, i, host);
      distances := distances + [predistance];
    }
    assert sets[..|sets|] == sets;
  }

  lemma DistancesSnoc(sets: seq<seq<Landmark>>, i: nat, host: Host)
    requires i < |sets|
    ensures Distances(sets[..i + 1], host) == Distances(sets[..i], host) + [Predistance(sets[i], host)]
  {
    var a, b := Distances(sets[..i + 1], host), Distances(sets[..i], host) + [Predistance(sets[i], host)];
    assert |a| == |b|;
    forall k | 0 <= k <= i
      ensures a[k] == b[k]
    {
      assert sets[..i + 1][k] == sets[k];
      if k < i {
        assert sets[..i][k] == sets[k];
      }
    }
  }

  /** One aspect of the data set: its id, its name, the landmark set it
      selected on each image, and its value and sd once calculated. The
      name is the corrected `NameOf`, so that pseudoreplicates group. */
  class Aspect {
    const id: string
    const name: string
    var landmarkSets: seq<seq<Landmark>>
    var value: Option<Num>
    var sd: Option<real>

    constructor (id: string)
      ensures this.id == id && name == NameOf(id)
      ensures landmarkSets == [] && value == None && sd == None
    {
      this.id := id;
      name := NameOf(id);
      landmarkSets := [];
      value := None;
      sd := None;
    }

    /** `add_landmark`: appends the landmark set of one image. */
    method AddLandmark(lmSet: seq<Landmark>)
      modifies this`landmarkSets
      ensures landmarkSets == old(landmarkSets) + [lmSet]
    {
      landmarkSets := landmarkSets + [lmSet];
    }

    /** `calculate`: the value is the sum of the chain lengths over the
        images; the sd is set only when there are more than two sets. */
    method Calculate(host: Host)
      modifies this`value, this`sd
      ensures value == Some(SumNums(Distances(landmarkSets, host)))
      ensures sd == if |landmarkSets| > 2 then Some(Sd(Distances(landmarkSets, host), host)) else old(sd)
    {
      var distances := ChainLengths(landmarkSets, host);
      var n := |landmarkSets|;
      if n > 2 {
        var s := GetSd(distances, host);
        sd := Some(s);
      }
      value := Some(SumNums(distances));
    }
  }

  /* ---------- grouping by a key ---------- */

  /** A dict of lists filled by `d[key].append(val)`, creating the list on
      the first mention of its key: the shape of both `parse_data` (images
      by file name) and the pseudoreplicate grouping (aspects by name). */
  function GroupBy<T, V>(items: seq<T>, key: T -> string, val: T -> V): (d: Dict<string, seq<V>>)
  {
    if items == [] then Empty()
    else
      var n := |items| - 1;
      Append(GroupBy(items[..n], key, val), key(items[n]), val(items[n]))
  }

  /** `d[k].append(v)`, or `d[k] = [v]` when `k` is new. */
  function Append<V>(d: Dict<string, seq<V>>, k: string, v: V): (r: Dict<string, seq<V>>)
  {
    d.Put(k, (if k in d.m then d.m[k] else []) + [v])
  }

  /** The values of the items of key `k`, in item order. */
  function Members<T, V>(items: seq<T>, key: T -> string, val: T -> V, k: string): (r: seq<V>)
    ensures |r| <= |items|
  {
    if items == [] then []
    else
      var n := |items| - 1;
      Members(items[..n], key, val, k) + (if key(items[n]) == k then [val(items[n])] else [])
  }

  /** Grouping lists every key once and holds exactly the keys of the
      items. */
  lemma {:induction false} GroupByKeys<T, V>(items: seq<T>, key: T -> string, val: T -> V)
    ensures GroupBy(items, key, val).Valid()
    ensures forall k :: k in GroupBy(items, key, val).m <==> exists i :: 0 <= i < |items| && key(items[i]) == k
    decreases |items|
  {
    if items != [] {
      var n := |items| - 1;
      GroupByKeys(items[..n], key, val);
      assert forall i :: 0 <= i < n ==> items[..n][i] == items[i];
      PutValid(GroupBy(items[..n], key, val), key(items[n]), []);
    }
  }

  /** Each key's group holds the values of its items, in order: nothing is
      overwritten and nothing is lost. */
  lemma {:induction false} GroupByMembers<T, V>(items: seq<T>, key: T -> string, val: T -> V)
    ensures forall k :: k in GroupBy(items, key, val).m ==>
      GroupBy(items, key, val).m[k] == Members(items, key, val, k) != []
    decreases |items|
  {
    if items != [] {
      var n := |items| - 1;
      var d := GroupBy(items[..n], key, val);
      GroupByMembers(items[..n], key, val);
      GroupByKeys(items[..n], key, val);
      var k0 := key(items[n]);
      forall k | k in GroupBy(items, key, val).m
        ensures GroupBy(items, key, val).m[k] == Members(items, key, val, k) != []
      {
        if k == k0 {
          if k0 !in d.m {
            MembersNone(items[..n], key, val, k0);
          }
        }
      }
    }
  }

  /** A key no item has has no members. */
  lemma {:induction false} MembersNone<T, V>(items: seq<T>, key: T -> string, val: T -> V, k: string)
    requires forall i :: 0 <= i < |items| ==> key(items[i]) != k
    ensures Members(items, key, val, k) == []
    decreases |items|
  {
    if items != [] {
      var n := |items| - 1;
      var init := items[..n];
      forall i | 0 <= i < |init|
        ensures key(init[i]) != k
      {
        assert init[i] == items[i];
      }
      MembersNone(init, key, val, k);
    }
  }

  /** Every item's value is kept in the group of its key. */
  lemma {:induction false} MembersHave<T, V>(items: seq<T>, key: T -> string, val: T -> V, i: nat)
    requires i < |items|
    ensures val(items[i]) in Members(items, key, val, key(items[i]))
    decreases |items|
  {
    var n := |items| - 1;
    if i < n {
      MembersHave(items[..n], key, val, i);
      assert items[..n][i] == items[i];
    }
  }

  /* ---------- parse_data ---------- */

  /** One data line: the fields as the analyzer reads them, then both
      coordinates through `float()`, which raises ValueError. */
  function ReadLine(line: string, host: Host): (r: Result<(string, Landmark)>)
    ensures r.Ok? <==> (Images.ParseDataLine(line).Ok?
                        && host.toFloat(Images.ParseDataLine(line).value.xText).Some?
                        && host.toFloat(Images.ParseDataLine(line).value.yText).Some?)
  {
    var rec :- Images.ParseDataLine(line);
    match host.toFloat(rec.xText)
    case None => Err(ValueError)
    case Some(x) =>
      match host.toFloat(rec.yText)
      case None => Err(ValueError)
      case Some(y) => Ok((rec.filename, Landmark(rec.landmark, x, y)))
  }

  function Reader(host: Host): string -> Result<(string, Landmark)>
  {
    line => ReadLine(line, host)
  }

  /** The landmarks of the data files grouped by image, in line order. */
  function Collect(records: seq<(string, Landmark)>): Dict<string, seq<Landmark>>
  {
    GroupBy(records, (r: (string, Landmark)) => r.0, (r: (string, Landmark)) => r.1)
  }

  /** An image file: its name and the landmarks read for it, in order. */
  class Image {
    const filename: string
    var landmarks: seq<Landmark>

    constructor (filename: string)
      ensures this.filename == filename && landmarks == []
    {
      this.filename := filename;
      landmarks := [];
    }

    /** `add_landmark`: appends one landmark. */
    method AddLandmark(landmark: Landmark)
      modifies this`landmarks
      ensures landmarks == old(landmarks) + [landmark]
    {
      landmarks := landmarks + [landmark];
    }
  }

  /** The images dict lists each file once, under its own file name. */
  ghost predicate ImagesValid(images: Dict<string, Image>)
  {
    images.Valid() && forall f :: f in images.m ==> images.m[f].filename == f
  }

  /** The landmark lists of the images, in the images' order. */
  ghost function View(images: Dict<string, Image>): Dict<string, seq<Landmark>>
    reads images.m.Values
  {
    Dict(images.keys, map f | f in images.m :: images.m[f].landmarks)
  }

  /** The body of the loop of `parse_data` after a line is read: finds or
      creates the image and appends the landmark to it. */
  method FileLandmark(images: Dict<string, Image>, filename: string, landmark: Landmark) returns (updated: Dict<string, Image>)
    requires ImagesValid(images)
    modifies images.m.Values
    ensures ImagesValid(updated)
    ensures View(updated) == Append(old(View(images)), filename, landmark)
    ensures forall f :: f in images.m ==> f in updated.m && updated.m[f] == images.m[f]
    ensures forall f :: f in updated.m ==> f in images.m || fresh(updated.m[f])
  {
    if filename in images.m {
      AppendTo(images, filename, landmark);
      updated := images;
    } else {
      updated := AddImage(images, filename, landmark);
    }
  }

  /** `image.add_landmark(landmark)` on the image already read for the file. */
  method AppendTo(images: Dict<string, Image>, filename: string, landmark: Landmark)
    requires ImagesValid(images) && filename in images.m
    modifies images.m[filename]
    ensures View(images) == Append(old(View(images)), filename, landmark)
  {
    ghost var before := View(images);
    var image := images.m[filename];
    image.AddLandmark(landmark);
    forall f | f in images.m
      ensures View(images).m[f] == Append(before, filename, landmark).m[f]
    {
      if f != filename {
        assert images.m[f].filename != image.filename;
      }
    }
  }

  /** `Image(filename)` stored under its name, with the landmark added. */
  method AddImage(images: Dict<string, Image>, filename: string, landmark: Landmark) returns (updated: Dict<string, Image>)
    requires ImagesValid(images) && filename !in images.m
    ensures ImagesValid(updated)
    ensures View(updated) == Append(View(images), filename, landmark)
    ensures forall f :: f in images.m ==> f in updated.m && updated.m[f] == images.m[f]
    ensures fresh(updated.m[filename])
  {
    var image := new Image(filename);
    image.AddLandmark(landmark);
    PutValid(images, filename, image);
    updated := images.Put(filename, image);
    ViewPut(images, filename, image);
    assert [] + [landmark] == [landmark];
  }

  /** Storing a new image shows its landmarks under its name. */
  lemma ViewPut(images: Dict<string, Image>, filename: string, image: Image)
    requires filename !in images.m
    ensures View(images.Put(filename, image)) == View(images).Put(filename, image.landmarks)
  {
    var updated := images.Put(filename, image);
    forall f | f in updated.m
      ensures View(updated).m[f] == View(images).m[filename := image.landmarks][f]
    {
      if f != filename {
        assert updated.m[f] == images.m[f];
      }
    }
    assert View(updated).m.Keys == View(images).m[filename := image.landmarks].Keys;
  }

  /** `parse_data`: reads the lines of the files in order; the first line
      that does not read aborts the run. */
  method ParseData(files: seq<seq<string>>, host: Host) returns (r: Result<Dict<string, Image>>)
    ensures r.Ok? <==> Images.ReadAll(Images.Flatten(files), Reader(host)).Ok?
    ensures r.Ok? ==> ImagesValid(r.value)
    ensures r.Ok? ==> View(r.value) == Collect(Images.ReadAll(Images.Flatten(files), Reader(host)).value)
    ensures r.Ok? ==> forall f :: f in r.value.m ==> fresh(r.value.m[f])
  {
    var lines := Images.Flatten(files);
    var images: Dict<string, Image> := Empty();
    ghost var records: seq<(string, Landmark)> := [];
    for i := 0 to |lines|
      invariant Images.ReadAll(lines[..i], Reader(host)) == Ok(records)
      invariant Holding(images, records)
      invariant forall f :: f in images.m ==> fresh(images.m[f])
    {
      ReadAllStep(lines, i, Reader(host));
      var step := DataLine(images, lines[i], host, records);
      if step.Err? {
        Images.ReadErrorPrefix(lines[..i + 1], lines, Reader(host));
        return Err(step.error);
      }
      images := step.value;
      records := records + [ReadLine(lines[i], host).value];
    }
    assert lines[..|lines|] == lines;
    return Ok(images);
  }

  /** The images hold the landmarks of the records read, each under its
      file name. */
  ghost predicate Holding(images: Dict<string, Image>, records: seq<(string, Landmark)>)
    reads images.m.Values
  {
    ImagesValid(images) && View(images) == Collect(records)
  }

  /** The loop body of `parse_data`: the line is read and its landmark
      filed under its image. */
  method DataLine(images: Dict<string, Image>, line: string, host: Host, ghost records: seq<(string, Landmark)>)
    returns (r: Result<Dict<string, Image>>)
    requires Holding(images, records)
    modifies images.m.Values
    ensures r.Ok? <==> ReadLine(line, host).Ok?
    ensures r.Err? ==> r.error == ReadLine(line, host).error
    ensures r.Ok? ==> Holding(r.value, records + [ReadLine(line, host).value])
    ensures r.Ok? ==> forall f :: f in r.value.m ==> f in images.m || fresh(r.value.m[f])
    ensures r.Ok? ==> forall f :: f in images.m ==> f in r.value.m && r.value.m[f] == images.m[f]
  {
    var rec :- ReadLine(line, host);
    var updated := FileLandmark(images, rec.0, rec.1);
    CollectSnoc(records, rec);
    return Ok(updated);
  }

  /** Reading one more line of `lines`. */
  lemma ReadAllStep<R>(lines: seq<string>, i: nat, read: string -> Result<R>)
    requires i < |lines| && Images.ReadAll(lines[..i], read).Ok?
    ensures read(lines[i]).Err? ==> Images.ReadAll(lines[..i + 1], read).Err?
    ensures read(lines[i]).Ok? ==>
      Images.ReadAll(lines[..i + 1], read) == Ok(Images.ReadAll(lines[..i], read).value + [read(lines[i]).value])
  {
    Images.ReadAllSnoc(lines[..i], lines[i], read);
    assert lines[..i + 1] == lines[..i] + [lines[i]];
  }

  /** One more record read is filed under its image. */
  lemma CollectSnoc(records: seq<(string, Landmark)>, rec: (string, Landmark))
    ensures Collect(records + [rec]) == Append(Collect(records), rec.0, rec.1)
  {
    assert (records + [rec])[..|records|] == records;
  }

  /* ---------- parse_config ---------- */

  /** The landmarks of an image whose name is among `names`, in the image's
      order, duplicates kept. */
  function Select(lms: seq<Landmark>, names: seq<string>): (r: seq<Landmark>)
    ensures |r| <= |lms|
  {
    if lms == [] then []
    else
      var n := |lms| - 1;
      Select(lms[..n], names) + (if lms[n].name in names then [lms[n]] else [])
  }

  /** The loop that fills `lm_list` for one image. */
  method SelectLandmarks(lms: seq<Landmark>, names: seq<string>) returns (lmList: seq<Landmark>)
    ensures lmList == Select(lms, names)
  {
    lmList := [];
    for i := 0 to |lms|
      invariant lmList == Select(lms[..i], names)
    {
      assert lms[..i + 1][..i] == lms[..i];
      if lms[i].name in names {
        lmList := lmList + [lms[i]];
      }
    }
    assert lms[..|lms|] == lms;
  }

  /** The selection keeps every landmark of a requested name as often as
      the image holds it, and no other. */
  lemma {:induction false} SelectCounts(lms: seq<Landmark>, names: seq<string>)
    ensures forall p :: multiset(Select(lms, names))[p] == if p.name in names then multiset(lms)[p] else 0
    decreases |lms|
  {
    if lms != [] {
      var n := |lms| - 1;
      SelectCounts(lms[..n], names);
      assert lms == lms[..n] + [lms[n]];
    }
  }

  /** Selection is a subsequence: it keeps the image's order. */
  lemma {:induction false} SelectOrder(lms: seq<Landmark>, names: seq<string>)
    ensures exists idx: seq<nat> :: Picks(idx, lms, Select(lms, names))
    decreases |lms|
  {
    if lms != [] {
      var n := |lms| - 1;
      var init, prev := lms[..n], Select(lms[..n], names);
      SelectOrder(init, names);
      var idx: seq<nat> :| Picks(idx, init, prev);
      assert lms == init + [lms[n]];
      if lms[n].name in names {
        assert Select(lms, names) == prev + [lms[n]];
        PicksKept(idx, init, prev, lms[n]);
      } else {
        assert Select(lms, names) == prev;
        PicksSkipped(idx, init, prev, lms[n]);
      }
    } else {
      assert Picks([], lms, Select(lms, names));
    }
  }

  lemma PicksKept(idx: seq<nat>, lms: seq<Landmark>, sub: seq<Landmark>, x: Landmark)
    requires Picks(idx, lms, sub)
    ensures Picks(idx + [|lms|], lms + [x], sub + [x])
  {
  }

  lemma PicksSkipped(idx: seq<nat>, lms: seq<Landmark>, sub: seq<Landmark>, x: Landmark)
    requires Picks(idx, lms, sub)
    ensures Picks(idx, lms + [x], sub)
  {
  }

  /** `sub` is `lms` at the strictly increasing positions `idx`. */
  ghost predicate Picks(idx: seq<nat>, lms: seq<Landmark>, sub: seq<Landmark>)
  {
    && |idx| == |sub|
    && (forall k :: 0 <= k < |idx| ==> idx[k] < |lms| && lms[idx[k]] == sub[k])
    && (forall k, l :: 0 <= k < l < |idx| ==> idx[k] < idx[l])
  }

  /** The landmark sets an aspect selects, one per image in the images'
      order. */
  function Selections(view: Dict<string, seq<Landmark>>, names: seq<string>): (r: seq<seq<Landmark>>)
    requires view.Valid()
    ensures |r| == |view.keys|
    ensures forall i :: 0 <= i < |r| ==> r[i] == Select(view.m[view.keys[i]], names)
  {
    seq(|view.keys|, i requires 0 <= i < |view.keys| && view.Valid() => Select(view.m[view.keys[i]], names))
  }

  /** The loop over the images: one landmark set appended per image. */
  method AttachSets(aspect: Aspect, images: Dict<string, Image>, names: seq<string>)
    requires ImagesValid(images)
    modifies aspect
    ensures aspect.landmarkSets == old(aspect.landmarkSets) + Selections(View(images), names)
    ensures aspect.value == old(aspect.value) && aspect.sd == old(aspect.sd)
  {
    ghost var selected := Selections(View(images), names);
    for i := 0 to |images.keys|
      invariant aspect.landmarkSets == old(aspect.landmarkSets) + selected[..i]
      invariant aspect.value == old(aspect.value) && aspect.sd == old(aspect.sd)
    {
      var lmList := SelectLandmarks(images.m[images.keys[i]].landmarks, names);
      aspect.AddLandmark(lmList);
      assert selected[..i + 1] == selected[..i] + [lmList];
    }
    assert selected[..|images.keys|] == selected;
  }

  /** As written, line 164 calls `split` on the list `split_line`, which
      raises AttributeError on every line that is not a comment. */
  function ParsedAsWritten(lines: seq<string>): (r: Result<seq<Config.ConfigLine>>)
  {
    if lines == [] then Ok([])
    else
      var n := |lines| - 1;
      var done :- ParsedAsWritten(lines[..n]);
      if Config.IsComment(lines[n]) then Ok(done) else Err(AttributeError)
  }

  /** As written, the config file is read only when every line is a
      comment, and then yields no aspect. */
  lemma {:induction false} AsWrittenFails(lines: seq<string>)
    ensures ParsedAsWritten(lines).Ok? <==> forall i :: 0 <= i < |lines| ==> Config.IsComment(lines[i])
    ensures ParsedAsWritten(lines).Ok? ==> ParsedAsWritten(lines).value == []
    ensures ParsedAsWritten(lines).Err? ==> ParsedAsWritten(lines).error == AttributeError
    decreases |lines|
  {
    if lines != [] {
      var n := |lines| - 1;
      AsWrittenFails(lines[..n]);
      assert forall i :: 0 <= i < n ==> lines[..n][i] == lines[i];
    }
  }

  /** Every line of the documented format (not a comment, with a `:`) is
      rejected as written and read by the corrected split. */
  lemma AsWrittenRejects(line: string)
    requires !Config.IsComment(line) && ':' in line
    ensures ParsedAsWritten([line]) == Err(AttributeError)
    ensures Config.Parsed([line]).Ok?
  {
    assert [line][..0] == [];
  }

  /** A parsed config line: its id is `name:lm1,lm2,...` over a name without
      `:` and at least one landmark name without `:` or `,`. */
  ghost predicate WellFormed(c: Config.ConfigLine)
  {
    && c.id == c.name + ":" + Join(c.names, ',')
    && ':' !in c.name && |c.names| >= 1
    && forall i :: 0 <= i < |c.names| ==> ':' !in c.names[i] && ',' !in c.names[i]
  }

  lemma {:induction false} ParsedWellFormed(lines: seq<string>)
    requires Config.Parsed(lines).Ok?
    ensures forall c :: c in Config.Parsed(lines).value ==> WellFormed(c)
    decreases |lines|
  {
    if lines != [] {
      var n := |lines| - 1;
      ParsedWellFormed(lines[..n]);
      if !Config.IsComment(lines[n]) {
        LineWellFormed(lines[n]);
      }
    }
  }

  /** A line that parses gives a well-formed config line. */
  lemma LineWellFormed(line: string)
    requires Config.ParseConfigLine(line).Ok?
    ensures WellFormed(Config.ParseConfigLine(line).value)
  {
    Config.ConfigLineShape(line);
  }

  /** Two config lines with the same id request the same landmarks, so the
      aspect that replaces another under its id selects the same sets. */
  lemma SameId(c1: Config.ConfigLine, c2: Config.ConfigLine)
    requires WellFormed(c1) && WellFormed(c2) && c1.id == c2.id
    ensures c1 == c2
  {
    Config.IdSplits(c1);
    Config.IdSplits(c2);
  }

  /** The aspect made for config line `c`, before it is calculated. */
  ghost predicate Holds(a: Aspect, c: Config.ConfigLine, view: Dict<string, seq<Landmark>>)
    requires view.Valid()
    reads a
  {
    && a.id == c.id && a.name == NameOf(c.id)
    && a.landmarkSets == Selections(view, c.names)
    && a.value == None && a.sd == None
  }

  /** The aspects dict made from the config lines `cfg`: one aspect per
      id, the last line of each id providing it. */
  ghost predicate AspectsFrom(aspects: Dict<string, Aspect>, cfg: seq<Config.ConfigLine>, view: Dict<string, seq<Landmark>>)
    requires view.Valid()
    reads aspects.m.Values
  {
    && aspects.Valid()
    && (forall k :: k in aspects.m ==> aspects.m[k].id == k && exists c :: c in cfg && c.id == k)
    && (forall c :: c in cfg ==> WellFormed(c) && c.id in aspects.m && Holds(aspects.m[c.id], c, view))
  }

  /** The aspect of one config line that is not a comment: made, and
      given one landmark set per image. */
  method MakeAspect(c: Config.ConfigLine, images: Dict<string, Image>, ghost view: Dict<string, seq<Landmark>>)
    returns (aspect: Aspect)
    requires ImagesValid(images) && view == View(images)
    ensures fresh(aspect) && Holds(aspect, c, view)
  {
    aspect := new Aspect(c.id);
    AttachSets(aspect, images, c.names);
  }

  /** Storing the aspect of one more config line under its id keeps the
      dict the one made from the lines read so far: an earlier aspect with
      the same id came from an identical line. */
  lemma AspectStored(aspects: Dict<string, Aspect>, cfg: seq<Config.ConfigLine>, c: Config.ConfigLine,
                     aspect: Aspect, view: Dict<string, seq<Landmark>>)
    requires view.Valid() && WellFormed(c) && Holds(aspect, c, view)
    requires AspectsFrom(aspects, cfg, view)
    ensures AspectsFrom(aspects.Put(c.id, aspect), cfg + [c], view)
    ensures aspects.Put(c.id, aspect).m.Values <= aspects.m.Values + {aspect}
  {
    PutValid(aspects, c.id, aspect);
    var updated := aspects.Put(c.id, aspect);
    forall d | d in cfg + [c]
      ensures WellFormed(d) && d.id in updated.m && Holds(updated.m[d.id], d, view)
    {
      if d.id == c.id {
        SameId(c, d);
      } else {
        assert d in cfg;
      }
    }
  }

  /** The loop body of `parse_config` on a line that parsed as `c`: its
      aspect is made and stored under its id. */
  method StoreAspect(aspects: Dict<string, Aspect>, c: Config.ConfigLine, images: Dict<string, Image>,
                     ghost view: Dict<string, seq<Landmark>>, ghost cfg: seq<Config.ConfigLine>)
    returns (updated: Dict<string, Aspect>)
    requires ImagesValid(images) && view == View(images) && AspectsFrom(aspects, cfg, view) && WellFormed(c)
    ensures AspectsFrom(updated, cfg + [c], view)
    ensures forall a :: a in updated.m.Values ==> a in aspects.m.Values || fresh(a)
  {
    var aspect := MakeAspect(c, images, view);
    AspectStored(aspects, cfg, c, aspect, view);
    updated := aspects.Put(c.id, aspect);
  }

  /** The corrected `parse_config`: comments skipped, every other line
      split at its first `:` and the pieces of its landmark field, made into
      an aspect; the first line without `:` raises IndexError. */
  method ParseConfig(lines: seq<string>, images: Dict<string, Image>) returns (r: Result<Dict<string, Aspect>>)
    requires ImagesValid(images)
    ensures r.Ok? <==> Config.Parsed(lines).Ok?
    ensures r.Ok? ==> AspectsFrom(r.value, Config.Parsed(lines).value, View(images))
    ensures r.Ok? ==> forall a :: a in r.value.m.Values ==> fresh(a)
  {
    ghost var view := View(images);
    var aspects: Dict<string, Aspect> := Empty();
    ghost var cfg: seq<Config.ConfigLine> := [];
    for i := 0 to |lines|
      invariant Config.Parsed(lines[..i]) == Ok(cfg)
      invariant View(images) == view
      invariant AspectsFrom(aspects, cfg, view)
      invariant forall a :: a in aspects.m.Values ==> fresh(a)
    {
      Config.ParsedStep(lines, i, cfg);
      if !Config.IsComment(lines[i]) {
        var parsed := Config.ParseConfigLine(lines[i]);
        if parsed.Err? {
          Config.ParsedErrorSticks(lines[..i + 1], lines);
          return Err(parsed.error);
        }
        LineWellFormed(lines[i]);
        aspects := StoreAspect(aspects, parsed.value, images, view, cfg);
        cfg := cfg + [parsed.value];
      }
    }
    assert lines[..|lines|] == lines;
    return Ok(aspects);
  }

  /* ---------- the main block: calculation and pseudoreplicates ---------- */

  /** An aspect once calculated, as the results need it. */
  datatype Outcome = Outcome(name: string, value: Num, sd: Option<real>)

  function NameKey(o: Outcome): string { o.name }

  function Same(o: Outcome): Outcome { o }

  /** What `calculate` leaves in a fresh aspect named `name` holding `sets`:
      the summed chain lengths, and an sd only over more than two sets. */
  function Calculated(name: string, sets: seq<seq<Landmark>>, host: Host): Outcome
  {
    var distances := Distances(sets, host);
    Outcome(name, SumNums(distances), if |sets| > 2 then Some(Sd(distances, host)) else None)
  }

  /** The aspects, calculated, in the dict's iteration order. */
  ghost function Outcomes(aspects: Dict<string, Aspect>, host: Host): (r: seq<Outcome>)
    reads aspects.m.Values
    ensures |r| == |aspects.keys|
  {
    seq(|aspects.keys|, i requires 0 <= i < |aspects.keys| reads aspects.m.Values =>
      if aspects.keys[i] in aspects.m then
        var a := aspects.m[aspects.keys[i]];
        Calculated(a.name, a.landmarkSets, host)
      else Outcome("", Int(0), None))
  }

  /** The aspect holds the value and sd of `o`. */
  ghost predicate Shows(a: Aspect, o: Outcome)
    reads a
  {
    a.value == Some(o.value) && a.sd == o.sd
  }

  /** The first loop of the main block: every aspect is calculated and
      filed under its name, so that aspects sharing a name (pseudoreplicates)
      end up in one list, in iteration order. */
  method CalculateAll(aspects: Dict<string, Aspect>, host: Host) returns (groups: Dict<string, seq<Outcome>>)
    requires aspects.Valid()
    requires forall k :: k in aspects.m ==> aspects.m[k].id == k && aspects.m[k].sd == None
    modifies aspects.m.Values`value, aspects.m.Values`sd
    ensures groups == GroupBy(old(Outcomes(aspects, host)), NameKey, Same)
    ensures forall j :: 0 <= j < |aspects.keys| ==> Shows(aspects.m[aspects.keys[j]], old(Outcomes(aspects, host))[j])
  {
    ghost var outcomes := Outcomes(aspects, host);
    var items := aspects.Items();
    ItemsDistinct(aspects, items);
    groups := CalculateItems(items, host, outcomes);
  }

  /** The loop of the first pass over the aspects, in iteration order. */
  method CalculateItems(items: seq<Aspect>, host: Host, ghost outcomes: seq<Outcome>) returns (groups: Dict<string, seq<Outcome>>)
    requires |outcomes| == |items|
    requires forall j :: 0 <= j < |items| ==> outcomes[j] == Calculated(items[j].name, items[j].landmarkSets, host)
    requires forall j :: 0 <= j < |items| ==> items[j].sd == None
    requires forall j, l :: 0 <= j < |items| && 0 <= l < |items| && j != l ==> items[j] != items[l]
    modifies items`value, items`sd
    ensures groups == GroupBy(outcomes, NameKey, Same)
    ensures forall j :: 0 <= j < |items| ==> Shows(items[j], outcomes[j])
  {
    groups := Empty();
    for i := 0 to |items|
      invariant groups == GroupBy(outcomes[..i], NameKey, Same)
      invariant forall j :: 0 <= j < i ==> Shows(items[j], outcomes[j])
      invariant forall j :: i <= j < |items| ==> items[j].sd == None
    {
      groups := FileOutcome(items[i], groups, host, outcomes, i);
    }
    GroupByStep(outcomes, |items|, NameKey, Same);
  }

  /** Aspects filed under different ids are different objects. */
  lemma ItemsDistinct(aspects: Dict<string, Aspect>, items: seq<Aspect>)
    requires aspects.Valid() && forall k :: k in aspects.m ==> aspects.m[k].id == k
    requires |items| == |aspects.keys| && forall j :: 0 <= j < |items| ==> items[j] == aspects.m[aspects.keys[j]]
    ensures forall j, l :: 0 <= j < |items| && 0 <= l < |items| && j != l ==> items[j] != items[l]
  {
    forall j, l | 0 <= j < |items| && 0 <= l < |items| && j != l
      ensures items[j] != items[l]
    {
      assert items[j].id == aspects.keys[j] != aspects.keys[l] == items[l].id;
    }
  }

  /** One turn of the first loop: the aspect is calculated and filed. */
  method FileOutcome(aspect: Aspect, groups: Dict<string, seq<Outcome>>, host: Host, ghost outcomes: seq<Outcome>, ghost i: nat)
    returns (updated: Dict<string, seq<Outcome>>)
    requires i < |outcomes| && outcomes[i] == Calculated(aspect.name, aspect.landmarkSets, host)
    requires aspect.sd == None && groups == GroupBy(outcomes[..i], NameKey, Same)
    modifies aspect`value, aspect`sd
    ensures updated == GroupBy(outcomes[..i + 1], NameKey, Same) && Shows(aspect, outcomes[i])
  {
    var o := CalculateOne(aspect, host);
    GroupByStep(outcomes, i, NameKey, Same);
    updated := Append(groups, o.name, o);
  }

  /** Grouping one more item files it under its key. */
  lemma GroupByStep<T, V>(items: seq<T>, i: nat, key: T -> string, val: T -> V)
    requires i <= |items|
    ensures i < |items| ==> GroupBy(items[..i + 1], key, val) == Append(GroupBy(items[..i], key, val), key(items[i]), val(items[i]))
    ensures i == |items| ==> GroupBy(items[..i], key, val) == GroupBy(items, key, val)
  {
    if i < |items| {
      assert items[..i + 1][..i] == items[..i];
    } else {
      assert items[..i] == items;
    }
  }

  /** `aspect.calculate()` on an aspect not calculated before. */
  method CalculateOne(aspect: Aspect, host: Host) returns (o: Outcome)
    requires aspect.sd == None
    modifies aspect`value, aspect`sd
    ensures o == Calculated(aspect.name, aspect.landmarkSets, host) && Shows(aspect, o)
  {
    aspect.Calculate(host);
    o := Outcome(aspect.name, aspect.value.value, aspect.sd);
  }

  /** Every outcome filed under a name carries that name. */
  lemma {:induction false} MembersNamed(items: seq<Outcome>, k: string)
    ensures forall o :: o in Members(items, NameKey, Same, k) ==> o.name == k
    decreases |items|
  {
    if items != [] {
      MembersNamed(items[..|items| - 1], k);
    }
  }

  /** One line of `results.csv`: aspect name, value, sd. */
  datatype Row = Row(name: string, value: Num, sd: real)

  function ValuesOf(group: seq<Outcome>): (r: seq<Num>)
    ensures |r| == |group| && forall i :: 0 <= i < |group| ==> r[i] == group[i].value
  {
    seq(|group|, i requires 0 <= i < |group| => group[i].value)
  }

  /** The results line of the group filed under `name`: pseudoreplicates
      are averaged (`sum(values)/len(v)`) with their own sd; a lone aspect
      is written as it is, and formatting its missing sd with `%f` raises
      TypeError. */
  function RowOf(name: string, group: seq<Outcome>, host: Host): Result<Row>
    requires group != []
  {
    if |group| > 1 then
      var values := ValuesOf(group);
      Ok(Row(name, Average(values).value, Sd(values, host)))
    else if group[0].sd.None? then Err(TypeError)
    else Ok(Row(group[0].name, group[0].value, group[0].sd.value))
  }

  /** A group fails only when it is a lone aspect without sd; a lone
      aspect's own numbers are written unchanged. */
  lemma RowOfCases(name: string, group: seq<Outcome>, host: Host)
    requires group != []
    ensures RowOf(name, group, host).Err? <==> |group| == 1 && group[0].sd.None?
    ensures RowOf(name, group, host).Err? ==> RowOf(name, group, host).error == TypeError
    ensures |group| == 1 && group[0].sd.Some? ==>
      RowOf(name, group, host) == Ok(Row(group[0].name, group[0].value, group[0].sd.value))
    ensures |group| > 1 ==> RowOf(name, group, host).value.name == name
  {
  }

  /** Pseudoreplicates that agree report their common value with the sd of
      a constant sample. */
  lemma ReplicatesAgree(name: string, group: seq<Outcome>, host: Host, c: int)
    requires |group| > 1
    requires forall i :: 0 <= i < |group| ==> group[i].value.Real() == c as real
    ensures RowOf(name, group, host).Ok?
    ensures RowOf(name, group, host).value.value.Real() == c as real
    ensures RowOf(name, group, host).value.sd == host.sqrt(0.0)
  {
    var values := ValuesOf(group);
    AverageBounds(values, c, c as real);
    SdConstant(values, host);
  }

  /** Every row of a pseudoreplicate group has a non-negative sd. */
  lemma RowSdNonNegative(name: string, group: seq<Outcome>, host: Host)
    requires |group| > 1 && ExactSqrt(host)
    ensures RowOf(name, group, host).value.sd >= 0.0
  {
    SdNonNegative(ValuesOf(group), host);
  }

  /** An aspect alone under its name fails exactly when at most two images
      were read, since each image gave it one landmark set. */
  lemma LoneAspect(name: string, sets: seq<seq<Landmark>>, host: Host)
    ensures RowOf(name, [Calculated(name, sets, host)], host).Err? <==> |sets| <= 2
  {
  }

  /** The values of a run of steps that each may fail: the first failure
      stops the run. */
  function AllOk<T>(rs: seq<Result<T>>): (r: Result<seq<T>>)
  {
    if rs == [] then Ok([])
    else
      var n := |rs| - 1;
      var done :- AllOk(rs[..n]);
      var v :- rs[n];
      Ok(done + [v])
  }

  /** A run succeeds exactly when every step does, and then yields their
      values in order; otherwise it fails with one of the steps' errors. */
  lemma {:induction false} AllOkAre<T>(rs: seq<Result<T>>)
    ensures AllOk(rs).Ok? <==> forall i :: 0 <= i < |rs| ==> rs[i].Ok?
    ensures AllOk(rs).Ok? ==> |AllOk(rs).value| == |rs| && forall i :: 0 <= i < |rs| ==> AllOk(rs).value[i] == rs[i].value
    ensures AllOk(rs).Err? ==> exists i :: 0 <= i < |rs| && rs[i] == Err(AllOk(rs).error)
    decreases |rs|
  {
    if rs != [] {
      var n := |rs| - 1;
      AllOkAre(rs[..n]);
      assert forall i :: 0 <= i < n ==> rs[..n][i] == rs[i];
    }
  }

  /** A failure in a prefix of the run is the failure of the whole run. */
  lemma {:induction false} AllOkStops<T>(rs: seq<Result<T>>, k: nat)
    requires k <= |rs| && AllOk(rs[..k]).Err?
    ensures AllOk(rs) == AllOk(rs[..k])
    decreases |rs| - k
  {
    if k < |rs| {
      assert rs[..k + 1][..k] == rs[..k];
      AllOkStops(rs, k + 1);
    } else {
      assert rs[..k] == rs;
    }
  }

  /** The results line of every group, in the dict's iteration order. */
  function GroupRows(groups: Dict<string, seq<Outcome>>, host: Host): (r: seq<Result<Row>>)
    requires forall k :: k in groups.keys ==> k in groups.m && groups.m[k] != []
    ensures |r| == |groups.keys|
    ensures forall i :: 0 <= i < |r| ==> r[i] == RowOf(groups.keys[i], groups.m[groups.keys[i]], host)
  {
    seq(|groups.keys|, i requires 0 <= i < |groups.keys| && groups.keys[i] in groups.m && groups.m[groups.keys[i]] != [] =>
      RowOf(groups.keys[i], groups.m[groups.keys[i]], host))
  }

  /** A group the results loop can write: pseudoreplicates, or a lone
      aspect with an sd. */
  predicate Writable(group: seq<Outcome>)
  {
    |group| > 1 || (|group| == 1 && group[0].sd.Some?)
  }

  /** The results file: written exactly when every group can be, with one
      line per name; otherwise the error is the TypeError of a lone aspect
      without sd. */
  lemma RowsAre(groups: Dict<string, seq<Outcome>>, host: Host)
    requires forall k :: k in groups.keys ==> k in groups.m && groups.m[k] != []
    ensures AllOk(GroupRows(groups, host)).Ok? <==> forall k :: k in groups.keys ==> Writable(groups.m[k])
    ensures AllOk(GroupRows(groups, host)).Ok? ==> |AllOk(GroupRows(groups, host)).value| == |groups.keys|
    ensures AllOk(GroupRows(groups, host)).Err? ==> AllOk(GroupRows(groups, host)).error == TypeError
  {
    var rs := GroupRows(groups, host);
    AllOkAre(rs);
    forall i | 0 <= i < |rs|
      ensures rs[i].Ok? <==> Writable(groups.m[groups.keys[i]])
      ensures rs[i].Err? ==> rs[i].error == TypeError
    {
      RowOfCases(groups.keys[i], groups.m[groups.keys[i]], host);
    }
    if AllOk(rs).Err? {
      var i :| 0 <= i < |rs| && rs[i] == Err(AllOk(rs).error);
    }
  }

  /** The second loop of the main block: one results line per name. */
  method WriteRows(groups: Dict<string, seq<Outcome>>, host: Host) returns (r: Result<seq<Row>>)
    requires forall k :: k in groups.keys ==> k in groups.m && groups.m[k] != []
    ensures r == AllOk(GroupRows(groups, host))
  {
    ghost var rs := GroupRows(groups, host);
    var rows: seq<Row> := [];
    for i := 0 to |groups.keys|
      invariant AllOk(rs[..i]) == Ok(rows)
    {
      var k := groups.keys[i];
      assert rs[..i + 1][..i] == rs[..i];
      var row := RowOf(k, groups.m[k], host);
      if row.Err? {
        AllOkStops(rs, i + 1);
        return Err(row.error);
      }
      rows := rows + [row.value];
    }
    assert rs[..|groups.keys|] == rs;
    return Ok(rows);
  }

  /** Each name's list holds, in order, every calculated aspect of that
      name and nothing else, so the results loop can read any of them. */
  lemma Pseudoreplicates(outcomes: seq<Outcome>)
    ensures GroupBy(outcomes, NameKey, Same).Valid()
    ensures forall k :: k in GroupBy(outcomes, NameKey, Same).m <==> exists i :: 0 <= i < |outcomes| && outcomes[i].name == k
    ensures forall k :: k in GroupBy(outcomes, NameKey, Same).m ==>
      GroupBy(outcomes, NameKey, Same).m[k] == Members(outcomes, NameKey, Same, k) != [] &&
      forall o :: o in GroupBy(outcomes, NameKey, Same).m[k] ==> o.name == k
  {
    GroupByKeys(outcomes, NameKey, Same);
    GroupByMembers(outcomes, NameKey, Same);
    forall k | k in GroupBy(outcomes, NameKey, Same).m
      ensures forall o :: o in Members(outcomes, NameKey, Same, k) ==> o.name == k
    {
      MembersNamed(outcomes, k);
    }
  }

  /** The aspects `parse_config` makes are ready to be calculated: one
      object per id, none calculated yet. */
  lemma AspectsReady(aspects: Dict<string, Aspect>, cfg: seq<Config.ConfigLine>, view: Dict<string, seq<Landmark>>)
    requires view.Valid() && AspectsFrom(aspects, cfg, view)
    ensures aspects.Valid()
    ensures forall k :: k in aspects.m ==> aspects.m[k].id == k && aspects.m[k].sd == None
  {
    forall k | k in aspects.m
      ensures aspects.m[k].sd == None
    {
      var c :| c in cfg && c.id == k;
    }
  }

  /** The results lines of the calculated aspects: grouped by name, then
      one line per name in the order the names were first met. */
  function ResultsFile(outcomes: seq<Outcome>, host: Host): Result<seq<Row>>
  {
    Pseudoreplicates(outcomes);
    AllOk(GroupRows(GroupBy(outcomes, NameKey, Same), host))
  }

  /** The results are written exactly when no aspect without sd is alone
      under its name, and then hold one line per distinct name. */
  lemma ResultsFileOk(outcomes: seq<Outcome>, host: Host)
    ensures ResultsFile(outcomes, host).Ok? <==>
      forall i :: 0 <= i < |outcomes| ==> Lone(outcomes, i) ==> outcomes[i].sd.Some?
    ensures ResultsFile(outcomes, host).Err? ==> ResultsFile(outcomes, host).error == TypeError
    ensures ResultsFile(outcomes, host).Ok? ==>
      |ResultsFile(outcomes, host).value| == |GroupBy(outcomes, NameKey, Same).keys|
  {
    var groups := GroupBy(outcomes, NameKey, Same);
    Pseudoreplicates(outcomes);
    RowsAre(groups, host);
    forall i | 0 <= i < |outcomes|
      ensures Writable(groups.m[outcomes[i].name]) <==> (Lone(outcomes, i) ==> outcomes[i].sd.Some?)
    {
      MembersHave(outcomes, NameKey, Same, i);
      WritableHolding(groups.m[outcomes[i].name], outcomes[i]);
    }
    forall k | k in groups.keys
      ensures exists i :: 0 <= i < |outcomes| && outcomes[i].name == k
    {
    }
  }

  /** A group holding `o` is writable unless `o` is alone in it without sd. */
  lemma WritableHolding(group: seq<Outcome>, o: Outcome)
    requires o in group
    ensures Writable(group) <==> (group == [o] ==> o.sd.Some?)
  {
    if |group| == 1 {
      assert group == [o];
    }
  }

  /** The aspect at `i` is the only one with its name. */
  ghost predicate Lone(outcomes: seq<Outcome>, i: int)
    requires 0 <= i < |outcomes|
  {
    Members(outcomes, NameKey, Same, outcomes[i].name) == [outcomes[i]]
  }

  /** The main block after parsing: aspects calculated and grouped by
      name, then one results line per name. */
  method Results(aspects: Dict<string, Aspect>, host: Host) returns (r: Result<seq<Row>>)
    requires aspects.Valid()
    requires forall k :: k in aspects.m ==> aspects.m[k].id == k && aspects.m[k].sd == None
    modifies aspects.m.Values`value, aspects.m.Values`sd
    ensures r == ResultsFile(old(Outcomes(aspects, host)), host)
  {
    var groups := CalculateAll(aspects, host);
    Pseudoreplicates(old(Outcomes(aspects, host)));
    r := WriteRows(groups, host);
  }
}
