/** The config file of the analyzer: one aspect per line, written
    `name:landmark,landmark,...`, evaluated on every image in turn. */
module Config {
  import opened Base
  import opened Text
  import opened Dicts
  import opened Values
  import opened Images
  import opened Aspects

  /** What `parse_config_line` returns: the aspect id, its name and the
      landmark names it requests. */
  datatype ConfigLine = ConfigLine(id: string, name: string, names: seq<string>)

  /** `[lm.strip(' ') for lm in pieces]`. */
  function StripEach(pieces: seq<string>): (r: seq<string>)
    ensures |r| == |pieces| && forall i :: 0 <= i < |pieces| ==> r[i] == Strip(pieces[i], ' ')
  {
    seq(|pieces|, i requires 0 <= i < |pieces| => Strip(pieces[i], ' '))
  }

  /** `parse_config_line`: the text before the first `:` is the name, the
      text between the first and the second `:` the comma-separated
      landmark names; spaces around each are stripped. A line without `:`
      fails at `split_line[1]`. */
  function ParseConfigLine(line: string): (r: Result<ConfigLine>)
    ensures r.Ok? <==> ':' in line
    ensures r.Err? ==> r.error == IndexError
  {
    StripKeeps(line, '\n', ':');
    SplitHasSep(Strip(line, '\n'), ':');
    FromFields(Split(Strip(line, '\n'), ':'))
  }

  /** The config line the `:`-fields of a line make. */
  function FromFields(parts: seq<string>): (r: Result<ConfigLine>)
  {
    if |parts| < 2 then Err(IndexError)
    else
      var name := Strip(parts[0], ' ');
      var names := StripEach(Split(parts[1], ','));
      Ok(ConfigLine(name + ":" + Join(names, ','), name, names))
  }

  /** A parsed name and landmark names carry no separator and no surrounding
      space, and there is at least one landmark name. */
  lemma ConfigLineShape(line: string)
    requires ParseConfigLine(line).Ok?
    ensures var c := ParseConfigLine(line).value;
      && ':' !in c.name && |c.names| >= 1
      && (c.name == [] || (c.name[0] != ' ' && c.name[|c.name| - 1] != ' '))
      && forall i :: 0 <= i < |c.names| ==>
           ':' !in c.names[i] && ',' !in c.names[i]
           && (c.names[i] == [] || (c.names[i][0] != ' ' && c.names[i][|c.names[i]| - 1] != ' '))
  {
    var parts := Split(Strip(line, '\n'), ':');
    StripKeeps(parts[0], ' ', ':');
    NamesShape(parts[1]);
  }

  /** The landmark names of a `:`-field carry no separator and no
      surrounding space. */
  lemma NamesShape(field: string)
    requires ':' !in field
    ensures var names := StripEach(Split(field, ','));
      && |names| >= 1
      && forall i :: 0 <= i < |names| ==>
           ':' !in names[i] && ',' !in names[i]
           && (names[i] == [] || (names[i][0] != ' ' && names[i][|names[i]| - 1] != ' '))
  {
    var pieces := Split(field, ',');
    forall i | 0 <= i < |pieces|
      ensures ':' !in Strip(pieces[i], ' ') && ',' !in Strip(pieces[i], ' ')
    {
      StripKeeps(pieces[i], ' ', ':');
      StripKeeps(pieces[i], ' ', ',');
      assert ':' !in pieces[i] by {
        if ':' in pieces[i] {
          JoinHas(pieces, ',', i, ':');
          JoinSplit(field, ',');
        }
      }
    }
  }

  lemma {:induction false} JoinHas(parts: seq<string>, sep: char, i: nat, ch: char)
    requires i < |parts| && ch in parts[i]
    ensures ch in Join(parts, sep)
    decreases |parts|
  {
    if i > 0 {
      JoinHas(parts[1..], sep, i - 1, ch);
    }
  }

  /** The id `name:lm1,lm2` determines the name and the landmark names: two
      lines with the same id request the same landmarks under the same name. */
  lemma IdDetermines(line1: string, line2: string)
    requires ParseConfigLine(line1).Ok? && ParseConfigLine(line2).Ok?
    requires ParseConfigLine(line1).value.id == ParseConfigLine(line2).value.id
    ensures ParseConfigLine(line1) == ParseConfigLine(line2)
  {
    var c1, c2 := ParseConfigLine(line1).value, ParseConfigLine(line2).value;
    ConfigLineShape(line1);
    ConfigLineShape(line2);
    IdSplits(c1);
    IdSplits(c2);
  }

  lemma IdSplits(c: ConfigLine)
    requires c.id == c.name + ":" + Join(c.names, ',')
    requires ':' !in c.name && |c.names| >= 1
    requires forall i :: 0 <= i < |c.names| ==> ':' !in c.names[i] && ',' !in c.names[i]
    ensures Split(c.id, ':') == [c.name, Join(c.names, ',')]
    ensures Split(Join(c.names, ','), ',') == c.names
  {
    assert ':' !in Join(c.names, ',') by {
      SplitJoin(c.names, ',');
      JoinAvoids(c.names, ',', ':');
    }
    SplitAtFirst(c.name, ':', Join(c.names, ','));
    SplitNoSep(Join(c.names, ','), ':');
    SplitJoin(c.names, ',');
  }

  lemma {:induction false} JoinAvoids(parts: seq<string>, sep: char, ch: char)
    requires ch != sep && forall i :: 0 <= i < |parts| ==> ch !in parts[i]
    ensures ch !in Join(parts, sep)
    decreases |parts|
  {
    if |parts| > 1 {
      JoinAvoids(parts[1..], sep, ch);
    }
  }

  /** The first two `:`-fields of a line without newlines. */
  lemma LineFields(nameText: string, rest: string, tail: string)
    requires ':' !in nameText && ':' !in rest && (tail == [] || tail[0] == ':')
    ensures var parts := Split(nameText + ":" + rest + tail, ':');
      |parts| >= 2 && parts[0] == nameText && parts[1] == rest
  {
    var after := rest + tail;
    assert nameText + ":" + rest + tail == nameText + [':'] + after;
    SplitAtFirst(nameText, ':', after);
    FirstField(rest, tail);
  }

  lemma FirstField(rest: string, tail: string)
    requires ':' !in rest && (tail == [] || tail[0] == ':')
    ensures Split(rest + tail, ':')[0] == rest
  {
    if tail == [] {
      assert rest + tail == rest;
      SplitNoSep(rest, ':');
    } else {
      assert rest + tail == rest + [':'] + tail[1..];
      SplitAtFirst(rest, ':', tail[1..]);
    }
  }

  /** A line written `name:piece,piece,...`, optionally followed by further
      `:`-fields, reads as the stripped name and the stripped pieces. */
  lemma ParseConfigLineReads(nameText: string, pieces: seq<string>, tail: string)
    requires ':' !in nameText && '\n' !in nameText
    requires |pieces| >= 1 && forall i :: 0 <= i < |pieces| ==> ',' !in pieces[i] && ':' !in pieces[i] && '\n' !in pieces[i]
    requires '\n' !in tail && (tail == [] || tail[0] == ':')
    ensures ParseConfigLine(nameText + ":" + Join(pieces, ',') + tail)
         == Ok(ConfigLine(Strip(nameText, ' ') + ":" + Join(StripEach(pieces), ','), Strip(nameText, ' '), StripEach(pieces)))
  {
    var rest := Join(pieces, ',');
    JoinAvoids(pieces, ',', ':');
    JoinAvoids(pieces, ',', '\n');
    var line := nameText + ":" + rest + tail;
    assert '\n' !in line;
    StripFixed(line, '\n');
    LineFields(nameText, rest, tail);
    SplitJoin(pieces, ',');
  }

  /** A trailing newline, as `readlines` leaves it, does not change a line. */
  lemma NewlineIgnored(line: string)
    requires line == [] || (line[0] != '\n' && line[|line| - 1] != '\n')
    ensures ParseConfigLine(line + "\n") == ParseConfigLine(line)
  {
    StripPadded([], line, "\n", '\n');
    assert [] + line + "\n" == line + "\n";
    StripFixed(line, '\n');
    assert Strip(line + "\n", '\n') == Strip(line, '\n');
  }

  /** Spaces around the name and around each landmark name do not change
      the aspect: lines that strip to the same name and pieces parse alike. */
  lemma SpacesIgnored(name1: string, pieces1: seq<string>, name2: string, pieces2: seq<string>)
    requires ':' !in name1 && '\n' !in name1 && ':' !in name2 && '\n' !in name2
    requires |pieces1| >= 1 && forall i :: 0 <= i < |pieces1| ==> ',' !in pieces1[i] && ':' !in pieces1[i] && '\n' !in pieces1[i]
    requires |pieces2| >= 1 && forall i :: 0 <= i < |pieces2| ==> ',' !in pieces2[i] && ':' !in pieces2[i] && '\n' !in pieces2[i]
    requires Strip(name1, ' ') == Strip(name2, ' ') && StripEach(pieces1) == StripEach(pieces2)
    ensures ParseConfigLine(name1 + ":" + Join(pieces1, ',')) == ParseConfigLine(name2 + ":" + Join(pieces2, ','))
  {
    LineReads(name1, pieces1);
    LineReads(name2, pieces2);
  }

  /** `ParseConfigLineReads` on a line with no third field. */
  lemma LineReads(nameText: string, pieces: seq<string>)
    requires ':' !in nameText && '\n' !in nameText
    requires |pieces| >= 1 && forall i :: 0 <= i < |pieces| ==> ',' !in pieces[i] && ':' !in pieces[i] && '\n' !in pieces[i]
    ensures ParseConfigLine(nameText + ":" + Join(pieces, ','))
         == Ok(ConfigLine(Strip(nameText, ' ') + ":" + Join(StripEach(pieces), ','), Strip(nameText, ' '), StripEach(pieces)))
  {
    var line := nameText + ":" + Join(pieces, ',');
    assert line + "" == line;
    ParseConfigLineReads(nameText, pieces, "");
  }

  /* ---------- the whole file ---------- */

  /** `line.startswith('#')`. */
  predicate IsComment(line: string)
  {
    |line| > 0 && line[0] == '#'
  }

  /** The config lines `parse_config` reads, comments skipped; the first
      line that does not parse is the error. */
  function Parsed(lines: seq<string>): (r: Result<seq<ConfigLine>>)
    ensures r.Ok? ==> |r.value| <= |lines|
  {
    if lines == [] then Ok([])
    else
      var n := |lines| - 1;
      var done :- Parsed(lines[..n]);
      if IsComment(lines[n]) then Ok(done)
      else
        var c :- ParseConfigLine(lines[n]);
        Ok(done + [c])
  }

  /** A line `parse_config` accepts: a comment, or one with a `:`. */
  predicate Accepted(line: string)
  {
    IsComment(line) || ':' in line
  }

  /** Only comments are skipped: the file parses exactly when every other
      line, blank ones included, has a `:`. */
  lemma {:induction false} ParsedOk(lines: seq<string>)
    ensures Parsed(lines).Ok? <==> AllAccepted(lines)
    decreases |lines|
  {
    if lines != [] {
      ParsedOk(lines[..|lines| - 1]);
      AllAcceptedSplit(lines);
    }
  }

  predicate AllAccepted(lines: seq<string>)
  {
    forall i :: 0 <= i < |lines| ==> Accepted(lines[i])
  }

  lemma AllAcceptedSplit(lines: seq<string>)
    requires lines != []
    ensures AllAccepted(lines) <==> AllAccepted(lines[..|lines| - 1]) && Accepted(lines[|lines| - 1])
  {
    var n := |lines| - 1;
    assert forall i :: 0 <= i < n ==> lines[..n][i] == lines[i];
  }

  /** Each line that is not a comment contributes its own aspect, in file
      order, after those of the lines before it. */
  lemma ParsedLine(done: seq<string>, line: string, rest: seq<string>)
    requires Parsed(done + [line] + rest).Ok? && !IsComment(line)
    ensures Parsed(done).Ok?
    ensures |Parsed(done).value| < |Parsed(done + [line] + rest).value|
    ensures Ok(Parsed(done + [line] + rest).value[|Parsed(done).value|]) == ParseConfigLine(line)
  {
    var upto := done + [line];
    assert upto <= done + [line] + rest;
    ParsedPrefix(upto, done + [line] + rest);
    assert upto[..|upto| - 1] == done;
  }

  /** A comment contributes nothing. */
  lemma ParsedComment(done: seq<string>, line: string)
    requires IsComment(line)
    ensures Parsed(done + [line]) == Parsed(done)
  {
    assert (done + [line])[..|done|] == done;
  }

  lemma {:induction false} ParsedPrefix(lines: seq<string>, more: seq<string>)
    requires lines <= more && Parsed(more).Ok?
    ensures Parsed(lines).Ok? && Parsed(lines).value <= Parsed(more).value
    decreases |more|
  {
    if |lines| < |more| {
      ParsedPrefix(lines, more[..|more| - 1]);
    } else {
      assert lines == more;
    }
  }

  lemma {:induction false} ParsedErrorSticks(lines: seq<string>, more: seq<string>)
    requires lines <= more && Parsed(lines).Err?
    ensures Parsed(more).Err?
    decreases |more|
  {
    if |lines| < |more| {
      ParsedErrorSticks(lines, more[..|more| - 1]);
    } else {
      assert lines == more;
    }
  }

  /* ---------- the aspects of one image ---------- */

  /** How one config line is evaluated on an image, given the aspects the
      image holds so far. */
  type Evaluator = (ConfigLine, seq<Evaluated>) -> Result<Value>

  /** The evaluator of an image with landmarks `lms`. */
  function OnImage(lms: seq<Landmark>, host: Host): Evaluator
  {
    (c: ConfigLine, before: seq<Evaluated>) => Outcome(c.names, c.name, lms, before, host)
  }

  /** The aspects of an image after evaluating the config lines in order,
      each stored under its id and seeing the aspects stored before it. */
  function Configure(cfg: seq<ConfigLine>, aspects: Dict<string, Evaluated>, eval: Evaluator): (r: Result<Dict<string, Evaluated>>)
    requires aspects.Valid()
    ensures r.Ok? ==> r.value.Valid()
  {
    if cfg == [] then Ok(aspects)
    else
      var n := |cfg| - 1;
      var before :- Configure(cfg[..n], aspects, eval);
      var value :- eval(cfg[n], before.Items());
      PutValid(before, cfg[n].id, Evaluated(cfg[n].id, cfg[n].name, value));
      Ok(before.Put(cfg[n].id, Evaluated(cfg[n].id, cfg[n].name, value)))
  }

  /** The ids of the config lines. */
  function Ids(cfg: seq<ConfigLine>): (r: set<string>)
    ensures forall c :: c in cfg ==> c.id in r
  {
    if cfg == [] then {} else Ids(cfg[..|cfg| - 1]) + {cfg[|cfg| - 1].id}
  }

  /** The image ends up with an aspect per distinct id of the config, besides
      those it had. */
  lemma {:induction false} ConfigureKeys(cfg: seq<ConfigLine>, aspects: Dict<string, Evaluated>, eval: Evaluator)
    requires aspects.Valid() && Configure(cfg, aspects, eval).Ok?
    ensures Configure(cfg, aspects, eval).value.m.Keys == aspects.m.Keys + Ids(cfg)
    decreases |cfg|
  {
    if cfg != [] {
      ConfigureKeys(cfg[..|cfg| - 1], aspects, eval);
    }
  }

  /** The aspect under a config line's id is that line evaluated on the
      aspects stored before it, when no later line has the same id:
      repeated lines collapse to the last. */
  lemma {:induction false} ConfigureStores(done: seq<ConfigLine>, c: ConfigLine, rest: seq<ConfigLine>, aspects: Dict<string, Evaluated>, eval: Evaluator)
    requires aspects.Valid() && Configure(done + [c] + rest, aspects, eval).Ok?
    requires forall j :: 0 <= j < |rest| ==> rest[j].id != c.id
    ensures Configure(done, aspects, eval).Ok?
    ensures eval(c, Configure(done, aspects, eval).value.Items()).Ok?
    ensures c.id in Configure(done + [c] + rest, aspects, eval).value.m
    ensures Configure(done + [c] + rest, aspects, eval).value.m[c.id]
         == Evaluated(c.id, c.name, eval(c, Configure(done, aspects, eval).value.Items()).value)
    decreases |rest|
  {
    var cfg := done + [c] + rest;
    ConfigureStep(cfg, aspects, eval);
    if rest == [] {
      assert cfg[..|cfg| - 1] == done && cfg[|cfg| - 1] == c;
    } else {
      var n := |rest| - 1;
      assert cfg[..|cfg| - 1] == done + [c] + rest[..n];
      assert cfg[|cfg| - 1] == rest[n];
      ConfigureStores(done, c, rest[..n], aspects, eval);
    }
  }

  /** The last config line read is evaluated on what the lines before it
      stored, and stored under its id. */
  lemma ConfigureStep(cfg: seq<ConfigLine>, aspects: Dict<string, Evaluated>, eval: Evaluator)
    requires aspects.Valid() && cfg != [] && Configure(cfg, aspects, eval).Ok?
    ensures var before, last := Configure(cfg[..|cfg| - 1], aspects, eval), cfg[|cfg| - 1];
      && before.Ok? && eval(last, before.value.Items()).Ok?
      && Configure(cfg, aspects, eval).value.m
         == before.value.m[last.id := Evaluated(last.id, last.name, eval(last, before.value.Items()).value)]
  {
  }

  lemma {:induction false} ConfigureErrorSticks(cfg: seq<ConfigLine>, more: seq<ConfigLine>, aspects: Dict<string, Evaluated>, eval: Evaluator)
    requires aspects.Valid() && cfg <= more && Configure(cfg, aspects, eval).Err?
    ensures Configure(more, aspects, eval).Err?
    decreases |more|
  {
    if |cfg| < |more| {
      ConfigureErrorSticks(cfg, more[..|more| - 1], aspects, eval);
    } else {
      assert cfg == more;
    }
  }

  /* ---------- parse_config ---------- */

  /** An image's landmarks and aspects, as they were before the config. */
  type Start = (Dict<string, Landmark>, Dict<string, Evaluated>)

  ghost function Snapshot(images: Dict<string, Image>): map<string, Start>
    reads images.m.Values
  {
    map f | f in images.m :: (images.m[f].landmarks, images.m[f].aspects)
  }

  /** The config evaluates without error on an image that started as `start`. */
  ghost predicate ConfigureOk(start: Start, cfg: seq<ConfigLine>, host: Host)
  {
    start.0.Valid() && start.1.Valid() && Configure(cfg, start.1, OnImage(start.0.Items(), host)).Ok?
  }

  /** The image kept its landmarks and holds the aspects of `cfg`. */
  ghost predicate ConfiguredAs(image: Image, start: Start, cfg: seq<ConfigLine>, host: Host)
    reads image
  {
    && start.0.Valid() && start.1.Valid()
    && image.landmarks == start.0
    && Configure(cfg, start.1, OnImage(start.0.Items(), host)) == Ok(image.aspects)
  }

  /** One config line on one image: a new aspect, evaluated and stored. */
  method ConfigureImage(image: Image, c: ConfigLine, host: Host, ghost start: Start, ghost cfg: seq<ConfigLine>) returns (r: Result<()>)
    requires image.Valid() && ConfiguredAs(image, start, cfg, host)
    modifies image`aspects
    ensures image.Valid()
    ensures r.Ok? <==> ConfigureOk(start, cfg + [c], host)
    ensures r.Ok? ==> ConfiguredAs(image, start, cfg + [c], host)
    ensures r.Err? ==> image.aspects == old(image.aspects)
  {
    assert (cfg + [c])[..|cfg|] == cfg;
    var aspect :- Evaluate(c.id, c.name, c.names, image, host);
    image.AddAspect(Evaluated(aspect.id, aspect.name, aspect.value.value));
    return Ok(());
  }

  /** Every image holds the aspects of `cfg`. */
  ghost predicate AllConfigured(images: Dict<string, Image>, start: map<string, Start>, cfg: seq<ConfigLine>, host: Host)
    reads images.m.Values
  {
    && ImagesValid(images)
    && forall f :: f in images.m ==> f in start && ConfiguredAs(images.m[f], start[f], cfg, host)
  }

  /** The aspect templates `parse_config` returns, one per config line. */
  predicate Templates(templates: seq<Aspect>, cfg: seq<ConfigLine>)
  {
    && |templates| == |cfg|
    && forall i :: 0 <= i < |cfg| ==> templates[i].id == cfg[i].id && templates[i].name == cfg[i].name
  }

  /** One more template, for one more config line. */
  lemma TemplatesSnoc(templates: seq<Aspect>, cfg: seq<ConfigLine>, t: Aspect, c: ConfigLine)
    requires Templates(templates, cfg) && t.id == c.id && t.name == c.name
    ensures Templates(templates + [t], cfg + [c])
  {
  }

  /** Part way through the images: those in `done` hold the aspects of
      `cfg + [c]`, the others those of `cfg`. */
  ghost predicate Stage(images: Dict<string, Image>, start: map<string, Start>, cfg: seq<ConfigLine>, c: ConfigLine, host: Host, done: set<string>)
    reads images.m.Values
  {
    && ImagesValid(images)
    && forall f :: f in images.m ==>
         f in start && ConfiguredAs(images.m[f], start[f], if f in done then cfg + [c] else cfg, host)
  }

  /** One more image through the inner loop; the other images are untouched. */
  method ConfigureNext(images: Dict<string, Image>, f: string, c: ConfigLine, host: Host, ghost start: map<string, Start>, ghost cfg: seq<ConfigLine>, ghost done: set<string>) returns (r: Result<()>)
    requires Stage(images, start, cfg, c, host, done) && f in images.m && f !in done
    modifies images.m[f]
    ensures ImagesValid(images)
    ensures r.Ok? ==> Stage(images, start, cfg, c, host, done + {f})
    ensures r.Err? ==> !ConfigureOk(start[f], cfg + [c], host)
  {
    var image := images.m[f];
    r := ConfigureImage(image, c, host, start[f], cfg);
    forall g | g in images.m && g != f
      ensures images.m[g].Valid()
      ensures ConfiguredAs(images.m[g], start[g], if g in done + {f} then cfg + [c] else cfg, host)
    {
      assert images.m[g].filename == g;
    }
  }

  lemma DoneOneMore(keys: seq<string>, j: nat, done: set<string>)
    requires j < |keys| && forall a, b :: 0 <= a < b < |keys| ==> keys[a] != keys[b]
    requires forall i :: 0 <= i < |keys| ==> (keys[i] in done <==> i < j)
    ensures forall i :: 0 <= i < |keys| ==> (keys[i] in done + {keys[j]} <==> i < j + 1)
  {
  }

  /** The inner loop of `parse_config`: one config line on every image. */
  method ConfigureImages(images: Dict<string, Image>, c: ConfigLine, host: Host, ghost start: map<string, Start>, ghost cfg: seq<ConfigLine>) returns (r: Result<()>)
    requires AllConfigured(images, start, cfg, host)
    modifies images.m.Values
    ensures ImagesValid(images)
    ensures r.Ok? ==> AllConfigured(images, start, cfg + [c], host)
    ensures r.Err? ==> exists f :: f in images.m && f in start && !ConfigureOk(start[f], cfg + [c], host)
  {
    var keys := images.keys;
    ghost var done: set<string> := {};
    for j := 0 to |keys|
      invariant Stage(images, start, cfg, c, host, done)
      invariant forall i :: 0 <= i < |keys| ==> (keys[i] in done <==> i < j)
    {
      var next := ConfigureNext(images, keys[j], c, host, start, cfg, done);
      if next.Err? {
        return Err(next.error);
      }
      DoneOneMore(keys, j, done);
      done := done + {keys[j]};
    }
    forall f | f in images.m
      ensures ConfiguredAs(images.m[f], start[f], cfg + [c], host)
    {
      var i :| 0 <= i < |keys| && keys[i] == f;
    }
    return Ok(());
  }

  /** One more line read: a comment leaves the config as it was, any other
      line that parses adds its config line. */
  lemma ParsedStep(lines: seq<string>, k: nat, cfg: seq<ConfigLine>)
    requires k < |lines| && Parsed(lines[..k]) == Ok(cfg)
    ensures IsComment(lines[k]) ==> Parsed(lines[..k + 1]) == Ok(cfg)
    ensures !IsComment(lines[k]) && ParseConfigLine(lines[k]).Ok? ==>
      Parsed(lines[..k + 1]) == Ok(cfg + [ParseConfigLine(lines[k]).value])
    ensures !IsComment(lines[k]) && ParseConfigLine(lines[k]).Err? ==> Parsed(lines[..k + 1]).Err?
  {
    assert lines[..k + 1][..k] == lines[..k];
  }

  /** A config line that fails on an image fails the whole config there. */
  lemma ConfigureFailStops(lines: seq<string>, k: nat, cfg: seq<ConfigLine>, c: ConfigLine, start: Start, host: Host)
    requires k < |lines| && Parsed(lines[..k + 1]) == Ok(cfg + [c])
    requires !ConfigureOk(start, cfg + [c], host)
    ensures Parsed(lines).Err? || !ConfigureOk(start, Parsed(lines).value, host)
  {
    if Parsed(lines).Ok? && start.0.Valid() && start.1.Valid() {
      assert lines[..k + 1] <= lines;
      ParsedPrefix(lines[..k + 1], lines);
      ConfigureErrorSticks(cfg + [c], Parsed(lines).value, start.1, OnImage(start.0.Items(), host));
    }
  }

  /** One line of the config file on every image: a comment is skipped,
      any other line is parsed and evaluated on each image in turn. */
  method ConfigureLine(line: string, images: Dict<string, Image>, host: Host, ghost start: map<string, Start>, ghost cfg: seq<ConfigLine>) returns (r: Result<Option<ConfigLine>>)
    requires AllConfigured(images, start, cfg, host)
    modifies images.m.Values
    ensures ImagesValid(images)
    ensures r.Ok? ==> (r.value.None? <==> IsComment(line))
    ensures r.Ok? && r.value.None? ==> AllConfigured(images, start, cfg, host)
    ensures r.Ok? && r.value.Some? ==>
      ParseConfigLine(line) == Ok(r.value.value) && AllConfigured(images, start, cfg + [r.value.value], host)
    ensures r.Err? ==> LineFails(line, images.m.Keys, start, cfg, host)
  {
    if IsComment(line) {
      return Ok(None);
    }
    var c :- ParseConfigLine(line);
    var done := ConfigureImages(images, c, host, start, cfg);
    if done.Err? {
      return Err(done.error);
    }
    return Ok(Some(c));
  }

  /** A line that is not a comment and either does not parse or fails on
      one of the images. */
  ghost predicate LineFails(line: string, files: set<string>, start: map<string, Start>, cfg: seq<ConfigLine>, host: Host)
  {
    && !IsComment(line)
    && (ParseConfigLine(line).Err?
        || exists f :: f in files && f in start && !ConfigureOk(start[f], cfg + [ParseConfigLine(line).value], host))
  }

  /** A failing line fails the whole file. */
  lemma LineFailStops(lines: seq<string>, k: nat, cfg: seq<ConfigLine>, files: set<string>, start: map<string, Start>, host: Host)
    requires files <= start.Keys
    requires k < |lines| && Parsed(lines[..k]) == Ok(cfg) && LineFails(lines[k], files, start, cfg, host)
    ensures !(Parsed(lines).Ok? && forall f :: f in files ==> ConfigureOk(start[f], Parsed(lines).value, host))
  {
    ParsedStep(lines, k, cfg);
    if ParseConfigLine(lines[k]).Err? {
      ParsedErrorSticks(lines[..k + 1], lines);
    } else {
      var f :| f in files && f in start && !ConfigureOk(start[f], cfg + [ParseConfigLine(lines[k]).value], host);
      ConfigureFailStops(lines, k, cfg, ParseConfigLine(lines[k]).value, start[f], host);
    }
  }

  /** The body of the loop of `parse_config`: line `k` read and, unless it
      is a comment, evaluated on every image and kept as a template. */
  method ReadConfigLine(lines: seq<string>, k: nat, images: Dict<string, Image>, host: Host, ghost start: map<string, Start>, ghost cfg: seq<ConfigLine>, templates: seq<Aspect>)
      returns (r: Result<()>, ghost cfg': seq<ConfigLine>, templates': seq<Aspect>)
    requires k < |lines| && AllConfigured(images, start, cfg, host)
    requires Parsed(lines[..k]) == Ok(cfg) && Templates(templates, cfg)
    modifies images.m.Values
    ensures ImagesValid(images)
    ensures r.Ok? ==> AllConfigured(images, start, cfg', host)
    ensures r.Ok? ==> Parsed(lines[..k + 1]) == Ok(cfg') && Templates(templates', cfg')
    ensures r.Ok? ==> forall t :: t in templates' ==> t in templates || fresh(t)
    ensures r.Err? ==> !(Parsed(lines).Ok? && forall f :: f in images.m ==> ConfigureOk(start[f], Parsed(lines).value, host))
  {
    ParsedStep(lines, k, cfg);
    cfg', templates' := cfg, templates;
    var step := ConfigureLine(lines[k], images, host, start, cfg);
    if step.Err? {
      LineFailStops(lines, k, cfg, images.m.Keys, start, host);
      return Err(step.error), cfg', templates';
    }
    if step.value.Some? {
      var c := step.value.value;
      templates' := KeepTemplate(templates, cfg, c);
      cfg' := cfg + [c];
    }
    r := Ok(());
  }

  /** `aspects.append(Aspect(...))` for a config line that is kept. */
  method KeepTemplate(templates: seq<Aspect>, ghost cfg: seq<ConfigLine>, c: ConfigLine) returns (templates': seq<Aspect>)
    requires Templates(templates, cfg)
    ensures Templates(templates', cfg + [c])
    ensures forall t :: t in templates' ==> t in templates || fresh(t)
  {
    var template := new Aspect(c.id, c.name);
    TemplatesSnoc(templates, cfg, template, c);
    templates' := templates + [template];
  }

  /** `parse_config`: every line that is not a comment is parsed and
      evaluated on every image, and its aspect kept as a template; the
      images keep their landmarks and end with the aspects of the config. */
  method ParseConfig(lines: seq<string>, images: Dict<string, Image>, host: Host) returns (r: Result<seq<Aspect>>)
    requires ImagesValid(images)
    modifies images.m.Values
    ensures ImagesValid(images)
    ensures r.Ok? <==> Parsed(lines).Ok? && forall f :: f in images.m ==> ConfigureOk(old(Snapshot(images))[f], Parsed(lines).value, host)
    ensures r.Ok? ==> forall f :: f in images.m ==> ConfiguredAs(images.m[f], old(Snapshot(images))[f], Parsed(lines).value, host)
    ensures r.Ok? ==> Templates(r.value, Parsed(lines).value)
    ensures r.Ok? ==> forall t :: t in r.value ==> fresh(t)
  {
    ghost var start := Snapshot(images);
    ghost var cfg: seq<ConfigLine> := [];
    var templates: seq<Aspect> := [];
    forall f | f in images.m
      ensures ConfiguredAs(images.m[f], start[f], cfg, host)
    {
      assert images.m[f].Valid();
    }
    assert AllConfigured(images, start, cfg, host);
    for k := 0 to |lines|
      invariant AllConfigured(images, start, cfg, host)
      invariant Parsed(lines[..k]) == Ok(cfg)
      invariant Templates(templates, cfg)
      invariant forall t :: t in templates ==> fresh(t)
    {
      var step;
      step, cfg, templates := ReadConfigLine(lines, k, images, host, start, cfg, templates);
      if step.Err? {
        return Err(step.error);
      }
    }
    assert lines[..|lines|] == lines;
    return Ok(templates);
  }
}
