/** `write_results`: the table of aspect values, one row per image in
    file-name order and one column per distinct aspect name, followed by
    the descriptive statistics of every column. Writing the text is not
    modelled; the table is returned as values. */
module Report {
  import opened Base
  import opened Dicts
  import opened Values
  import opened Sorting
  import opened Images
  import opened Aspects
  import opened Stats

  /* ---------- build_header ---------- */

  /** The names at their first occurrence, in order. */
  function Header(names: seq<string>): (labels: seq<string>)
  {
    if names == [] then []
    else
      var n := |names| - 1;
      var before := Header(names[..n]);
      if names[n] in names[..n] then before else before + [names[n]]
  }

  /** Every name is kept, nothing else is added, and each label appears
      once. */
  lemma {:induction false} HeaderKeeps(names: seq<string>)
    ensures forall x :: x in Header(names) <==> x in names
    ensures forall i, j :: 0 <= i < j < |Header(names)| ==> Header(names)[i] != Header(names)[j]
    decreases |names|
  {
    if names != [] {
      var n := |names| - 1;
      HeaderKeeps(names[..n]);
      assert names == names[..n] + [names[n]];
    }
  }

  /** The position of the first occurrence of `x`. */
  function First(names: seq<string>, x: string): (i: nat)
    requires x in names
    ensures i < |names| && names[i] == x && x !in names[..i]
  {
    if names[0] == x then 0
    else
      assert names[1..] + [] == names[1..];
      var i := First(names[1..], x) + 1;
      assert names[..i] == [names[0]] + names[1..][..i - 1];
      i
  }

  /** The labels come in the order of their first occurrences. */
  lemma {:induction false} HeaderOrder(names: seq<string>)
    ensures forall i, j :: 0 <= i < j < |Header(names)| ==>
      Header(names)[i] in names && Header(names)[j] in names
      && First(names, Header(names)[i]) < First(names, Header(names)[j])
    decreases |names|
  {
    HeaderKeeps(names);
    if names != [] {
      var n := |names| - 1;
      var prefix := names[..n];
      var before := Header(prefix);
      HeaderOrder(prefix);
      HeaderKeeps(prefix);
      forall x | x in prefix
        ensures First(names, x) == First(prefix, x)
      {
        FirstInPrefix(prefix, names, x);
      }
      if names[n] !in prefix {
        assert First(names, names[n]) == n by {
          FirstAfterPrefix(prefix, names);
        }
        forall i | 0 <= i < |before|
          ensures First(names, before[i]) < n
        {
          assert before[i] in prefix;
          assert First(prefix, before[i]) < |prefix|;
        }
      }
    }
  }

  lemma FirstInPrefix(prefix: seq<string>, names: seq<string>, x: string)
    requires prefix <= names && x in prefix
    ensures x in names && First(names, x) == First(prefix, x)
  {
    var i := First(prefix, x);
    assert prefix[..i] == names[..i];
    FirstUnique(names, x, i);
  }

  lemma FirstAfterPrefix(prefix: seq<string>, names: seq<string>)
    requires |names| == |prefix| + 1 && prefix == names[..|prefix|]
    requires names[|prefix|] !in prefix
    ensures First(names, names[|prefix|]) == |prefix|
  {
    FirstUnique(names, names[|prefix|], |prefix|);
  }

  /** The first occurrence is the one with no occurrence before it. */
  lemma FirstUnique(names: seq<string>, x: string, i: nat)
    requires i < |names| && names[i] == x && x !in names[..i]
    ensures First(names, x) == i
  {
    var j := First(names, x);
    forall k | 0 <= k < i
      ensures names[k] != x
    {
      assert names[k] == names[..i][k];
    }
    forall k | 0 <= k < j
      ensures names[k] != x
    {
      assert names[k] == names[..j][k];
    }
  }

  /** `build_header`: the loop over the names, skipping those already in
      the `known` set. */
  method BuildHeader(names: seq<string>) returns (labels: seq<string>)
    ensures labels == Header(names)
  {
    var known: set<string> := {};
    labels := [];
    for i := 0 to |names|
      invariant labels == Header(names[..i])
      invariant forall x :: x in known <==> x in names[..i]
    {
      assert names[..i + 1][..i] == names[..i];
      var name := names[i];
      if name in known {
        continue;
      }
      labels := labels + [name];
      known := known + {name};
    }
    assert names[..|names|] == names;
  }

  /* ---------- the values of one image ---------- */

  /** The values of the image's aspects called `name`, in the image's order. */
  function ValuesNamed(items: seq<Evaluated>, name: string): (r: seq<Value>)
    ensures |r| <= |items|
  {
    if items == [] then []
    else
      var n := |items| - 1;
      ValuesNamed(items[..n], name) + (if items[n].name == name then [items[n].value] else [])
  }

  /** `image_data`: the values of each aspect name the image holds. */
  function Group(items: seq<Evaluated>): (data: map<string, seq<Value>>)
  {
    if items == [] then map[]
    else
      var n := |items| - 1;
      var data := Group(items[..n]);
      var name := items[n].name;
      data[name := (if name in data then data[name] else []) + [items[n].value]]
  }

  /** A name has a list exactly when the image has an aspect of that name,
      and the list holds that aspect's values in order. */
  lemma {:induction false} GroupIs(items: seq<Evaluated>)
    ensures forall name :: name in Group(items) <==> ValuesNamed(items, name) != []
    ensures forall name :: name in Group(items) ==> Group(items)[name] == ValuesNamed(items, name)
    decreases |items|
  {
    if items != [] {
      GroupIs(items[..|items| - 1]);
    }
  }

  lemma GroupSnoc(items: seq<Evaluated>, i: nat)
    requires i < |items|
    ensures var data := Group(items[..i]); var name := items[i].name;
      Group(items[..i + 1]) == data[name := (if name in data then data[name] else []) + [items[i].value]]
  {
    assert items[..i + 1][..i] == items[..i];
  }

  /** The loop filling `image_data`. */
  method GroupByName(items: seq<Evaluated>) returns (data: map<string, seq<Value>>)
    ensures data == Group(items)
  {
    data := map[];
    for i := 0 to |items|
      invariant data == Group(items[..i])
    {
      GroupSnoc(items, i);
      var aspect := items[i];
      if aspect.name in data {
        data := data[aspect.name := data[aspect.name] + [aspect.value]];
      } else {
        assert [] + [aspect.value] == [aspect.value];
        data := data[aspect.name := [aspect.value]];
      }
    }
    assert items[..|items|] == items;
  }

  /** `[value for value in values if value != 'NA']`. */
  function Numbers(values: seq<Value>): (r: seq<Num>)
    ensures |r| <= |values|
  {
    if values == [] then []
    else
      var n := |values| - 1;
      Numbers(values[..n]) + (match values[n] case NA => [] case Of(x) => [x])
  }

  lemma {:induction false} NumbersEmpty(values: seq<Value>)
    ensures Numbers(values) == [] <==> forall i :: 0 <= i < |values| ==> values[i].NA?
    decreases |values|
  {
    if values != [] {
      NumbersEmpty(values[..|values| - 1]);
      assert forall i :: 0 <= i < |values| - 1 ==> values[..|values| - 1][i] == values[i];
    }
  }

  lemma {:induction false} NumbersFrom(values: seq<Value>)
    ensures forall k :: 0 <= k < |Numbers(values)| ==> Of(Numbers(values)[k]) in values
    decreases |values|
  {
    if values != [] {
      NumbersFrom(values[..|values| - 1]);
    }
  }

  /** The value written for one name on one image: a single value is
      written as it is; several (pseudoreplicates) are stripped of NA and
      averaged, NA when nothing is left. */
  function ColumnValue(values: seq<Value>): Value
    requires values != []
  {
    if |values| > 1 then
      match Average(Numbers(values))
      case None => NA
      case Some(x) => Of(x)
    else values[0]
  }

  /** A single value passes through, NA included. */
  lemma ColumnSingle(v: Value)
    ensures ColumnValue([v]) == v
  {
  }

  /** Pseudoreplicates give NA exactly when all of them are NA. */
  lemma ColumnNA(values: seq<Value>)
    requires |values| > 1
    ensures ColumnValue(values).NA? <==> forall i :: 0 <= i < |values| ==> values[i].NA?
  {
    NumbersEmpty(values);
  }

  /** The average of the pseudoreplicates lies between bounds of their
      values (a whole lower bound, as floor division may round down to it). */
  lemma ColumnWithin(values: seq<Value>, lo: int, hi: real)
    requires |values| > 1 && exists i :: 0 <= i < |values| && values[i].Of?
    requires forall i :: 0 <= i < |values| && values[i].Of? ==> lo as real <= values[i].num.Real() <= hi
    ensures ColumnValue(values).Of? && lo as real <= ColumnValue(values).num.Real() <= hi
  {
    var xs := Numbers(values);
    NumbersEmpty(values);
    NumbersFrom(values);
    forall k | 0 <= k < |xs|
      ensures lo as real <= xs[k].Real() <= hi
    {
      var i :| 0 <= i < |values| && values[i] == Of(xs[k]);
    }
    AverageBounds(xs, lo, hi);
  }

  /** `ordered_image_data` and the values written for it: KeyError when
      the image holds no aspect of some label, else one value per label. */
  function ImageRow(data: map<string, seq<Value>>, labels: seq<string>): (r: Result<seq<Value>>)
    requires forall name :: name in data ==> data[name] != []
  {
    if exists j :: 0 <= j < |labels| && labels[j] !in data then Err(KeyError)
    else Ok(seq(|labels|, j requires 0 <= j < |labels| => ColumnValue(data[labels[j]])))
  }

  /** The row of an image: KeyError exactly when some label names no aspect
      of the image; otherwise one value per label, that of the image's
      aspects of that name. */
  lemma RowOfImage(items: seq<Evaluated>, labels: seq<string>)
    ensures forall name :: name in Group(items) ==> Group(items)[name] != []
    ensures var r := ImageRow(Group(items), labels);
      && (r.Ok? <==> forall j :: 0 <= j < |labels| ==> ValuesNamed(items, labels[j]) != [])
      && (r.Err? ==> r.error == KeyError)
      && (r.Ok? ==> |r.value| == |labels|)
      && (r.Ok? ==> forall j :: 0 <= j < |labels| ==> r.value[j] == ColumnValue(ValuesNamed(items, labels[j])))
  {
    GroupIs(items);
  }

  /** The loop over the labels of one image. */
  method RowValues(data: map<string, seq<Value>>, labels: seq<string>) returns (r: Result<seq<Value>>)
    requires forall name :: name in data ==> data[name] != []
    ensures r == ImageRow(data, labels)
  {
    for j := 0 to |labels|
      invariant forall k :: 0 <= k < j ==> labels[k] in data
    {
      if labels[j] !in data {
        return Err(KeyError);
      }
    }
    var row: seq<Value> := [];
    for j := 0 to |labels|
      invariant |row| == j && forall k :: 0 <= k < j ==> row[k] == ColumnValue(data[labels[k]])
    {
      row := row + [ColumnValue(data[labels[j]])];
    }
    assert row == seq(|labels|, j requires 0 <= j < |labels| => ColumnValue(data[labels[j]]));
    return Ok(row);
  }

  /* ---------- the table ---------- */

  /** The rows of the images, in order; the first image that lacks a
      label stops the table with KeyError. */
  function Rows(labels: seq<string>, items: seq<seq<Evaluated>>): (r: Result<seq<seq<Value>>>)
    ensures r.Ok? ==> |r.value| == |items| && forall i :: 0 <= i < |items| ==> |r.value[i]| == |labels|
  {
    if items == [] then Ok([])
    else
      var n := |items| - 1;
      var done :- Rows(labels, items[..n]);
      RowOfImage(items[n], labels);
      var row :- ImageRow(Group(items[n]), labels);
      Ok(done + [row])
  }

  /** Every label names an aspect of the image. */
  ghost predicate Labelled(items: seq<Evaluated>, labels: seq<string>)
  {
    forall j :: 0 <= j < |labels| ==> ValuesNamed(items, labels[j]) != []
  }

  /** `row` holds, for each label, the value of the image's aspects of that
      name. */
  ghost predicate RowIs(items: seq<Evaluated>, labels: seq<string>, row: seq<Value>)
  {
    && |row| == |labels|
    && forall j :: 0 <= j < |labels| ==> ValuesNamed(items, labels[j]) != [] && row[j] == ColumnValue(ValuesNamed(items, labels[j]))
  }

  /** The table holds a row for every image exactly when every label names
      an aspect of every image; otherwise it fails with KeyError. */
  lemma {:induction false} RowsOk(labels: seq<string>, items: seq<seq<Evaluated>>)
    ensures Rows(labels, items).Ok? <==> forall i :: 0 <= i < |items| ==> Labelled(items[i], labels)
    ensures Rows(labels, items).Err? ==> Rows(labels, items).error == KeyError
    decreases |items|
  {
    if items != [] {
      var n := |items| - 1;
      var prev := Rows(labels, items[..n]);
      RowsOk(labels, items[..n]);
      RowOfImage(items[n], labels);
      var last := ImageRow(Group(items[n]), labels);
      assert last.Ok? <==> Labelled(items[n], labels);
      assert Rows(labels, items) ==
        if prev.Err? then Err(prev.error) else if last.Err? then Err(last.error) else Ok(prev.value + [last.value]);
      AllLabelledSplit(labels, items, items[..n]);
    }
  }

  lemma AllLabelledSplit(labels: seq<string>, items: seq<seq<Evaluated>>, init: seq<seq<Evaluated>>)
    requires items != [] && init == items[..|items| - 1]
    ensures (forall i :: 0 <= i < |items| ==> Labelled(items[i], labels)) <==>
      (forall i :: 0 <= i < |init| ==> Labelled(init[i], labels)) && Labelled(items[|items| - 1], labels)
  {
    assert forall i :: 0 <= i < |init| ==> init[i] == items[i];
  }

  /** The rows of the table are those of the images, in order. */
  lemma {:induction false} RowsAre(labels: seq<string>, items: seq<seq<Evaluated>>)
    requires Rows(labels, items).Ok?
    ensures forall i :: 0 <= i < |items| ==> RowIs(items[i], labels, Rows(labels, items).value[i])
    decreases |items|
  {
    if items != [] {
      var n := |items| - 1;
      var init, last := items[..n], items[n];
      var done := Rows(labels, init).value;
      RowOfImage(last, labels);
      var row := ImageRow(Group(last), labels).value;
      assert Rows(labels, items).value == done + [row];
      RowsAre(labels, init);
      RowOfImageIs(last, labels);
      assert items == init + [last];
      LabelledRowsSnoc(labels, init, last, done, row);
    }
  }

  lemma LabelledRowsSnoc(labels: seq<string>, init: seq<seq<Evaluated>>, last: seq<Evaluated>, done: seq<seq<Value>>, row: seq<Value>)
    requires |init| == |done| && RowIs(last, labels, row)
    requires forall i :: 0 <= i < |init| ==> RowIs(init[i], labels, done[i])
    ensures forall i :: 0 <= i < |init| + 1 ==> RowIs((init + [last])[i], labels, (done + [row])[i])
  {
    forall i | 0 <= i < |init| + 1
      ensures RowIs((init + [last])[i], labels, (done + [row])[i])
    {
      if i < |init| {
        assert (init + [last])[i] == init[i] && (done + [row])[i] == done[i];
      }
    }
  }

  lemma RowOfImageIs(items: seq<Evaluated>, labels: seq<string>)
    requires forall name :: name in Group(items) ==> Group(items)[name] != []
    requires ImageRow(Group(items), labels).Ok?
    ensures RowIs(items, labels, ImageRow(Group(items), labels).value)
  {
    RowOfImage(items, labels);
  }

  /** `data[name]` after the loop over the images: the column of the label. */
  function Column(rows: seq<seq<Value>>, j: nat): (r: seq<Value>)
    requires forall i :: 0 <= i < |rows| ==> j < |rows[i]|
    ensures |r| == |rows| && forall i :: 0 <= i < |rows| ==> r[i] == rows[i][j]
  {
    seq(|rows|, i requires 0 <= i < |rows| => rows[i][j])
  }

  /** `ordered_data`: the numbers of each of the first `k` columns, NAs
      stripped, in label order. */
  function OrderedData(rows: seq<seq<Value>>, k: nat): (r: seq<seq<Num>>)
    requires forall i :: 0 <= i < |rows| ==> k <= |rows[i]|
    ensures |r| == k && forall j :: 0 <= j < k ==> r[j] == Numbers(Column(rows, j))
  {
    seq(k, j requires 0 <= j < k => Numbers(Column(rows, j)))
  }

  /** The summary statistics of a column: nine NAs when it holds no number. */
  datatype Summary = AllNA | Described(stats: Stats)

  function SummaryOf(values: seq<Num>, host: Host): (r: Result<Summary>)
  {
    if values == [] then Ok(AllNA)
    else
      var stats :- StatsOf(values, host);
      Ok(Described(stats))
  }

  /** A column gets the NA summary exactly when it holds no number, and
      fails (ZeroDivisionError in `pop_std`) exactly when it holds one. */
  lemma SummaryCases(values: seq<Num>, host: Host)
    ensures SummaryOf(values, host) == Ok(AllNA) <==> values == []
    ensures SummaryOf(values, host).Err? <==> |values| == 1
    ensures SummaryOf(values, host).Err? ==> SummaryOf(values, host).error == ZeroDivisionError
  {
  }

  /** A described column counts its numbers, its minimum and maximum bound
      every one of them, and the quartiles lie in order between them. */
  lemma SummaryBounds(values: seq<Num>, host: Host, stats: Stats)
    requires SummaryOf(values, host) == Ok(Described(stats))
    ensures stats.n == |values|
    ensures forall i :: 0 <= i < |values| ==> stats.min <= values[i].Real() <= stats.max
    ensures stats.min <= stats.q1 <= stats.median <= stats.q3 <= stats.max
  {
    StatsExtremes(values, host);
    StatsOrdered(values, host);
  }

  /** A column with NAs only is summarised as NA. */
  lemma ColumnAllNA(column: seq<Value>, host: Host)
    ensures SummaryOf(Numbers(column), host) == Ok(AllNA) <==> forall i :: 0 <= i < |column| ==> column[i].NA?
  {
    NumbersEmpty(column);
  }

  /** Every number of the column is among its numbers, so the minimum and
      maximum of its summary bound it. */
  lemma {:induction false} NumbersHas(values: seq<Value>)
    ensures forall i :: 0 <= i < |values| && values[i].Of? ==> values[i].num in Numbers(values)
    decreases |values|
  {
    if values != [] {
      var n := |values| - 1;
      NumbersHas(values[..n]);
      assert forall i :: 0 <= i < n ==> values[..n][i] == values[i];
    }
  }

  /** The summaries of the columns, in label order; the first column that
      fails stops the table. */
  function Summaries(data: seq<seq<Num>>, host: Host): (r: Result<seq<Summary>>)
    ensures r.Ok? ==> |r.value| == |data|
  {
    if data == [] then Ok([])
    else
      var n := |data| - 1;
      var done :- Summaries(data[..n], host);
      var s :- SummaryOf(data[n], host);
      Ok(done + [s])
  }

  /** No column holds exactly one number. */
  ghost predicate NoLoneNumber(data: seq<seq<Num>>)
  {
    forall j :: 0 <= j < |data| ==> |data[j]| != 1
  }

  /** `summary` holds the summary of each column. */
  ghost predicate SummarisedAs(data: seq<seq<Num>>, summary: seq<Summary>, host: Host)
  {
    |summary| == |data| && forall j :: 0 <= j < |data| ==> SummaryOf(data[j], host) == Ok(summary[j])
  }

  /** The summaries are computed exactly when no column holds a lone
      number, for which `pop_std` divides by zero. */
  lemma {:induction false} SummariesOk(data: seq<seq<Num>>, host: Host)
    ensures Summaries(data, host).Ok? <==> NoLoneNumber(data)
    ensures Summaries(data, host).Err? ==> Summaries(data, host).error == ZeroDivisionError
    decreases |data|
  {
    if data != [] {
      var n := |data| - 1;
      SummariesOk(data[..n], host);
      SummaryCases(data[n], host);
      assert NoLoneNumber(data) <==> NoLoneNumber(data[..n]) && |data[n]| != 1 by {
        assert forall j :: 0 <= j < n ==> data[..n][j] == data[j];
      }
    }
  }

  lemma {:induction false} SummariesAre(data: seq<seq<Num>>, host: Host)
    requires Summaries(data, host).Ok?
    ensures SummarisedAs(data, Summaries(data, host).value, host)
    decreases |data|
  {
    if data != [] {
      var n := |data| - 1;
      var done := Summaries(data[..n], host);
      var s := SummaryOf(data[n], host);
      assert done.Ok? && s.Ok?;
      SummariesAre(data[..n], host);
      var summary := done.value + [s.value];
      assert Summaries(data, host) == Ok(summary);
      forall j | 0 <= j < |data|
        ensures SummaryOf(data[j], host) == Ok(summary[j])
      {
        if j < n {
          assert summary[j] == done.value[j] && data[j] == data[..n][j];
        }
      }
    }
  }

  /** What `write_results` writes: the header labels, the file names in
      sorted order, a row of values per image and a summary per label. */
  datatype Table = Table(labels: seq<string>, files: seq<string>, rows: seq<seq<Value>>, summary: seq<Summary>)

  function Tabulate(labels: seq<string>, files: seq<string>, items: seq<seq<Evaluated>>, host: Host): (r: Result<Table>)
  {
    var rows :- Rows(labels, items);
    var summary :- Summaries(OrderedData(rows, |labels|), host);
    Ok(Table(labels, files, rows, summary))
  }

  /** The table is written exactly when every label names an aspect of
      every image (else KeyError) and no column holds a lone number (else
      ZeroDivisionError); it then holds the images' rows and the summaries
      of its columns. */
  lemma TabulateCases(labels: seq<string>, files: seq<string>, items: seq<seq<Evaluated>>, host: Host)
    ensures Rows(labels, items).Ok? <==> forall i :: 0 <= i < |items| ==> Labelled(items[i], labels)
    ensures var r := Tabulate(labels, files, items, host);
      r.Ok? <==> Rows(labels, items).Ok? && NoLoneNumber(OrderedData(Rows(labels, items).value, |labels|))
    ensures var r := Tabulate(labels, files, items, host);
      r.Err? ==> r.error == (if Rows(labels, items).Err? then KeyError else ZeroDivisionError)
    ensures var r := Tabulate(labels, files, items, host);
      r.Ok? ==> && r.value.labels == labels && r.value.files == files
                && |r.value.rows| == |items|
                && (forall i :: 0 <= i < |items| ==> RowIs(items[i], labels, r.value.rows[i]))
                && SummarisedAs(OrderedData(r.value.rows, |labels|), r.value.summary, host)
  {
    RowsOk(labels, items);
    var rows := Rows(labels, items);
    if rows.Ok? {
      RowsAre(labels, items);
      var data := OrderedData(rows.value, |labels|);
      SummariesOk(data, host);
      if Summaries(data, host).Ok? {
        SummariesAre(data, host);
      }
    }
  }

  /** `[aspect.name for aspect in aspects]`. */
  function Names(aspects: seq<Aspect>): (r: seq<string>)
    ensures |r| == |aspects| && forall i :: 0 <= i < |aspects| ==> r[i] == aspects[i].name
  {
    seq(|aspects|, i requires 0 <= i < |aspects| => aspects[i].name)
  }

  /** The aspects of the images, in the order `iteritems` visits them. */
  ghost function ItemsOf(images: Dict<string, Image>, files: seq<string>): (r: seq<seq<Evaluated>>)
    requires ImagesValid(images) && forall i :: 0 <= i < |files| ==> files[i] in images.m
    reads images.m.Values
    ensures |r| == |files|
  {
    seq(|files|, i requires 0 <= i < |files| && ImagesValid(images) && files[i] in images.m
                   reads images.m.Values => images.m[files[i]].aspects.Items())
  }

  /* ---------- write_results ---------- */

  /** The loop over the images in file-name order. */
  method ImageRows(images: Dict<string, Image>, files: seq<string>, labels: seq<string>) returns (r: Result<seq<seq<Value>>>)
    requires ImagesValid(images) && forall i :: 0 <= i < |files| ==> files[i] in images.m
    ensures r == Rows(labels, ItemsOf(images, files))
  {
    ghost var all := ItemsOf(images, files);
    var rows: seq<seq<Value>> := [];
    for i := 0 to |files|
      invariant Rows(labels, all[..i]) == Ok(rows)
    {
      var items := images.m[files[i]].aspects.Items();
      assert items == all[i];
      var data := GroupByName(items);
      GroupIs(items);
      var row := RowValues(data, labels);
      RowsSnoc(labels, all, i);
      if row.Err? {
        RowsStop(labels, all, i + 1);
        return Err(row.error);
      }
      rows := rows + [row.value];
    }
    assert all[..|files|] == all;
    return Ok(rows);
  }

  lemma RowsSnoc(labels: seq<string>, items: seq<seq<Evaluated>>, i: nat)
    requires i < |items|
    ensures Rows(labels, items[..i + 1])
         == (var done :- Rows(labels, items[..i]);
             RowOfImage(items[i], labels);
             var row :- ImageRow(Group(items[i]), labels);
             Ok(done + [row]))
  {
    assert items[..i + 1][..i] == items[..i];
  }

  /** Once a prefix of the images fails, all of them do. */
  lemma {:induction false} RowsStop(labels: seq<string>, items: seq<seq<Evaluated>>, k: nat)
    requires k <= |items| && Rows(labels, items[..k]).Err?
    ensures Rows(labels, items) == Rows(labels, items[..k])
    decreases |items| - k
  {
    if k == |items| {
      assert items[..k] == items;
    } else {
      RowsSnoc(labels, items, k);
      RowsStop(labels, items, k + 1);
    }
  }

  /** One turn of the loop over `ordered_data`: `get_stats` of the
      column's numbers, or nine NAs when it has none. */
  method SummarizeColumn(values: seq<Num>, host: Host) returns (r: Result<Summary>)
    ensures r == SummaryOf(values, host)
  {
    if values == [] {
      return Ok(AllNA);
    }
    var stats :- GetStats(values, host);
    return Ok(Described(stats));
  }

  /** The loop over `ordered_data` computing the summary statistics. */
  method SummarizeColumns(data: seq<seq<Num>>, host: Host) returns (r: Result<seq<Summary>>)
    ensures r == Summaries(data, host)
  {
    var summary: seq<Summary> := [];
    for j := 0 to |data|
      invariant Summaries(data[..j], host) == Ok(summary)
    {
      var s := SummarizeColumn(data[j], host);
      SummariesSnoc(data, j, host);
      if s.Err? {
        SummariesStop(data, j + 1, host);
        return Err(s.error);
      }
      summary := summary + [s.value];
    }
    assert data[..|data|] == data;
    return Ok(summary);
  }

  lemma SummariesSnoc(data: seq<seq<Num>>, j: nat, host: Host)
    requires j < |data|
    ensures Summaries(data[..j + 1], host)
         == (var done :- Summaries(data[..j], host);
             var s :- SummaryOf(data[j], host);
             Ok(done + [s]))
  {
    assert data[..j + 1][..j] == data[..j];
  }

  /** Once the summaries of a prefix of the columns fail, all of them do. */
  lemma {:induction false} SummariesStop(data: seq<seq<Num>>, k: nat, host: Host)
    requires k <= |data| && Summaries(data[..k], host).Err?
    ensures Summaries(data, host) == Summaries(data[..k], host)
    decreases |data| - k
  {
    if k == |data| {
      assert data[..k] == data;
    } else {
      SummariesSnoc(data, k, host);
      SummariesStop(data, k + 1, host);
    }
  }

  /** `write_results`: the header, the rows of the images in file-name
      order and the summary of every column. */
  method WriteResults(images: Dict<string, Image>, aspects: seq<Aspect>, host: Host) returns (r: Result<Table>)
    requires ImagesValid(images)
    ensures SortedFiles(images)
    ensures r == Tabulate(Header(Names(aspects)), SortTexts(images.keys), ItemsOf(images, SortTexts(images.keys)), host)
  {
    var labels := BuildHeader(Names(aspects));
    var files := SortTexts(images.keys);
    SortedFilesHold(images);
    var rows :- ImageRows(images, files, labels);
    var summary :- SummarizeColumns(OrderedData(rows, |labels|), host);
    return Ok(Table(labels, files, rows, summary));
  }

  /** The sorted file names are the images' own, each once. */
  ghost predicate SortedFiles(images: Dict<string, Image>)
  {
    forall i :: 0 <= i < |SortTexts(images.keys)| ==> SortTexts(images.keys)[i] in images.m
  }

  lemma SortedFilesHold(images: Dict<string, Image>)
    requires images.Valid()
    ensures SortedFiles(images)
  {
    var files := SortTexts(images.keys);
    forall i | 0 <= i < |files|
      ensures files[i] in images.m
    {
      assert files[i] in multiset(images.keys);
    }
  }
}
