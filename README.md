# WormBox analyzer: a verified model

WormBox turns digitised landmark coordinates of specimen images into
measurements called *aspects*, and tabulates them. A config file names each
aspect and the landmarks it uses, one `name:landmark,landmark,...` per line.
There are three kinds of aspect:

- a *distance chain*: the summed distances along the named landmarks;
- a *meristic count*: `name:count` counts the landmarks called `name`;
- an *algebraic* aspect: an equation over `{other aspect}` placeholders.

The analyzer (`WormBox_Analyzer.py`) does five things:

- reads the data files into images;
- evaluates every config line on every image;
- averages pseudoreplicates, meaning several aspects of one name on one image;
- writes one row per image, sorted by file name;
- adds nine summary statistics per column, using Tukey's five-number summary
  as R's `fivenum` computes it.

The earlier script (`WormBox_.py`) treats every aspect as a chain. It sums
each aspect's chain lengths over all images, takes a standard deviation, and
reports aspects that share a name by their mean.

## Modules

| file | module | models |
|---|---|---|
| `base.dfy` | `Base` | `Option`, `Result` and the Python exceptions the scripts can raise |
| `values.dfy` | `Values` | Python 2 numbers (`int` and `float`), the `'NA'` value, `sum` and floor-dividing averages, and the `Host` (see below) |
| `text.dfy` | `Text` | `str.split`, `str.join`, `str.strip` and `re.findall(r'{(.*?)}', s)` |
| `dicts.dfy` | `Dicts` | Python `dict` as a map plus an iteration order |
| `sorting.dfy` | `Sorting` | `list.sort()` and `sorted()` on numbers and on text |
| `images.dfy` | `Images` | `Landmark`, the `Image` class, `parse_data_line` and `parse_data` |
| `aspects.dfy` | `Aspects` | the `Aspect` class and its evaluation |
| `config.dfy` | `Config` | `parse_config_line` and `parse_config` |
| `stats.dfy` | `Stats` | `get_stats` and its five-number summary |
| `report.dfy` | `Report` | `build_header` and `write_results` |
| `legacy.dfy` | `Legacy` | the whole core of `WormBox_.py` |

The `Host` datatype holds the functions the scripts call but do not define:

- `math.sqrt`;
- `float()`, which is `None` where it raises `ValueError`;
- `Template.substitute`;
- `eval`, with its exceptions already caught and turned into `'NA'`.

Where the source mutates state, the model does too:

- `Image` and `Aspect` are classes whose methods update their fields.
- The loops of `parse_data`, `parse_config`, `build_header`, `write_results`,
  `get_stats`, `get_predistance` and `calculate` are `for` loops.
- Each such method is proved equal to a specification function. The
  properties are then proved about that function.

Python's `dict` has no fixed iteration order. The model uses insertion order
as one admissible order. The results of `Config.ParseConfig`,
`Report.WriteResults` and `Legacy.Results` are the ones for that order. Three
computed results depend on it:

- A placeholder that names pseudoreplicates takes the last match in iteration
  order (WormBox_Analyzer.py:69-71, `Aspects.PicksLastWins`). The model picks
  the later config line; another order may pick another.
- `connect_landmarks` visits `image.landmarks` in dict order
  (WormBox_Analyzer.py:32). With names `1,2,3` on an image holding `1` at two
  places (`Images.DistinctPlacesKept`), one `2` and no `3`, three landmarks
  connect. The chain is then d(1a,1b) + d(1b,2) or d(1b,1a) + d(1a,2),
  depending on the order.
- The lines of the earlier script's results file follow the order of its
  dict of names (WormBox_.py:248).

### Behaviour worth knowing

- **Meristic with no match.** `name:count` on an image with no landmark called
  `name` connects nothing. The meristic flag is then never set, so the value
  is `'NA'`, not 0 (`Aspects.CountWithoutLandmarksIsNA`).
- **Chain order.** The landmarks of a chain follow config order, because
  `connect_landmarks` loops over the requested names first
  (`Aspects.ConnectedFollowsConfig`).
- **Landmark identity.** Landmarks are keyed by name plus the two coordinate
  texts. Two landmarks of one name at different places are both kept
  (`Images.DistinctPlacesKept`). A later record overwrites an earlier one
  only when all three agree (`Images.BuildLastWins`).
- **Errors.** Errors are the Python exceptions the code raises. There is no
  malformed-record or config-syntax error type, and no line number.
  - A blank config line has no `:`, so it raises `IndexError`.
  - An algebraic aspect whose first placeholder names no earlier aspect
    raises `UnboundLocalError`.
  - A later placeholder that names no aspect silently reuses the aspect
    selected before it (`Aspects.PicksStale`).
  - A column with exactly one number raises `ZeroDivisionError` in `pop_std`.
  - An image lacking an aspect of some header label raises `KeyError`.
  - In `WormBox_.py`, a lone aspect without an sd raises `TypeError` when its
    sd is formatted with `%f`.
- **Pseudoreplicate averaging.** NAs are stripped only when an image has more
  than one value for a name. When every value left is an `int` (meristic
  counts), Python 2 floor division applies.
- **`pop_std`.** The model keeps `sqrt(sum_sq / ((n - 1) / n))` as written.
  It divides by `(n - 1) / n` where the sample formula multiplies.
  `Stats.PopStdAsWrittenScaled` and `Stats.PopStdOfStd` state what it
  computes. `Stats.PopStd` is the conventional formula for comparison, and
  `Stats.PopStdExample` shows that the two differ on `[1, 3]`.
- **Legacy aspect names.** `WormBox_.py:15` names an aspect by the id up to the
  first comma, so `side:1,2` and `side:5,4` become `side:1` and `side:5` and
  are never grouped. The model names an aspect by the id up to the colon
  instead; see "## Findings".

## Model

| member | source | states |
|---|---|---|
| Values.SumNums | WormBox_Analyzer.py:107 | `sum` is the real sum of its terms, and stays an int exactly when every term is one |
| Values.Average | WormBox_Analyzer.py:354 | `sum(values) / len(values)` is undefined (ZeroDivisionError) exactly on the empty list, and an int exactly when every value is one |
| Values.AverageBounds | WormBox_Analyzer.py:349-357 | the average of values in [lo, hi] lies in [lo, hi], floor division included |
| Values.MeanBetween | WormBox_Analyzer.py:431 | the mean of values in [lo, hi] lies in [lo, hi] |
| Values.FloorBetween | WormBox_Analyzer.py:354 | floor division keeps a quotient above an int lower bound and below the upper bound |
| Values.SumBounds | WormBox_Analyzer.py:431 | a sum of n terms in [lo, hi] lies in [n lo, n hi] |
| Text.Split | WormBox_Analyzer.py:284 | `split` gives at least one piece, none holding the separator |
| Text.JoinSplit | WormBox_Analyzer.py:291 | joining the pieces of a split gives the text back |
| Text.SplitJoin | WormBox_Analyzer.py:289-291 | splitting a join of separator-free pieces gives the pieces back |
| Text.SplitHasSep | WormBox_Analyzer.py:284-289 | a split has a second piece exactly when the separator occurs |
| Text.SplitAtFirst | WormBox_Analyzer.py:223-224 | the first piece ends at the first separator |
| Text.SplitNoSep | WormBox_Analyzer.py:223 | a text without the separator splits into itself |
| Text.LStrip | WormBox_Analyzer.py:287 | `lstrip` drops exactly the leading run of the character |
| Text.RStrip | WormBox_Analyzer.py:287 | `rstrip` drops exactly the trailing run of the character |
| Text.Strip | WormBox_Analyzer.py:287 | the stripped text neither starts nor ends with the character |
| Text.StripKeeps | WormBox_Analyzer.py:287 | stripping removes no other character |
| Text.StripFixed | WormBox_Analyzer.py:248-250 | a text without surrounding spaces is unchanged, so stripping is idempotent |
| Text.StripPadded | WormBox_Analyzer.py:248-250 | padding a text with spaces and stripping gives the text back; interior spaces are kept |
| Text.CloseBrace | WormBox_Analyzer.py:46 | finds the first `}` with no newline before it, or reports that there is none |
| Text.Placeholders | WormBox_Analyzer.py:43-49 | the groups of `{(.*?)}` hold no `}` and no newline |
| Text.NoBraceNoPlaceholders | WormBox_Analyzer.py:46-49 | a text without `{` has no placeholder, so `get_equation_variables` returns None |
| Text.PlaceholderFound | WormBox_Analyzer.py:46 | `{v}` is found as `v`, shortest match, and the scan resumes after it |
| Dicts.Put | WormBox_Analyzer.py:140 | `d[k] = v` maps k to v; a new key is listed last and an existing key keeps its place |
| Dicts.Items | WormBox_Analyzer.py:32 | `iteritems` visits each value once, in the dict's order |
| Dicts.PutValid | WormBox_Analyzer.py:140 | storing under a key keeps every key listed once |
| Dicts.PutTwice | WormBox_Analyzer.py:140 | storing twice under a key is storing the second value |
| Sorting.Sort | WormBox_Analyzer.py:422 | sorting gives an ordered permutation |
| Sorting.InsertSorted | WormBox_Analyzer.py:422 | inserting into a sorted list keeps it sorted |
| Sorting.TextLe | WormBox_Analyzer.py:331 | definition of Python's `<=` on strings: the first differing character decides, and a proper prefix comes first; `Sorting.TextOrderTotal` makes it a total preorder |
| Sorting.TextLeAntisymmetric | WormBox_Analyzer.py:331 | two file names each at most the other are equal |
| Sorting.TextOrderTotal | WormBox_Analyzer.py:331 | string comparison is a total preorder |
| Sorting.TextLeTransitive | WormBox_Analyzer.py:331 | string comparison is transitive |
| Sorting.SortTexts | WormBox_Analyzer.py:331 | `sorted(images.keys())` is an ascending permutation of the names |
| Images.LandmarkId | WormBox_Analyzer.py:155 | definition of the key `'%sx%sy%s' % (name, x, y)` over the coordinate texts as read; `Images.LandmarkIdInjective` shows when it separates two places |
| Images.LandmarkIdInjective | WormBox_Analyzer.py:155 | equal `'%sx%sy%s'` keys of one name mean equal coordinate texts when x holds no `y` |
| Images.MakeLandmark | WormBox_Analyzer.py:154-158 | `Landmark()` succeeds exactly when both coordinates convert with `float()`, keyed by its texts |
| Images.Image.constructor | WormBox_Analyzer.py:133-136 | a new image has its name and no landmarks or aspects |
| Images.Image.AddLandmark | WormBox_Analyzer.py:138-140 | `add_landmark` stores the landmark under its id and keeps the image valid |
| Images.Image.AddAspect | WormBox_Analyzer.py:142-144 | `add_aspect` stores the aspect under its id and keeps the image valid |
| Images.ParseDataLine | WormBox_Analyzer.py:218-228 | `parse_data_line` fails exactly when there are fewer than three tab fields or no `:` in the first |
| Images.ParseDataLineReads | WormBox_Analyzer.py:218-228 | a line `file:lm\tx\ty` reads back as file, stripped lm, x and y |
| Images.ReadLine | WormBox_Analyzer.py:199-211 | definition: `parse_data_line`, then `Landmark()`; the first error raised is the result |
| Images.Record | WormBox_Analyzer.py:202-213 | filing a record changes only its image, adding the landmark under its id |
| Images.ReadAll | WormBox_Analyzer.py:195-199 | reading lines in order gives one record per line |
| Images.ReadAllOk | WormBox_Analyzer.py:195-199 | the read succeeds exactly when every line parses |
| Images.ReadAllLines | WormBox_Analyzer.py:197-199 | a successful read holds each line's record at its position |
| Images.ReadErrorSticks | WormBox_Analyzer.py:199 | an error on one line aborts the whole read |
| Images.FlattenPrefix | WormBox_Analyzer.py:195-197 | the lines of earlier files come first |
| Images.RecordValid | WormBox_Analyzer.py:140 | filing keeps every landmark under its own id |
| Images.Build | WormBox_Analyzer.py:201-213 | definition: the store after filing the records one by one; `Images.BuildImages`, `Images.BuildKeepsLandmarks` and `Images.BuildLastWins` state what it holds |
| Images.BuildValid | WormBox_Analyzer.py:140 | every image of the store keys its landmarks by id |
| Images.BuildImages | WormBox_Analyzer.py:202-208 | there is an image exactly for each file name the lines mention |
| Images.BuildKeepsLandmarks | WormBox_Analyzer.py:210-213 | every landmark read is in its image under its key; nothing read is lost |
| Images.BuildLastWins | WormBox_Analyzer.py:140 | the last record of an image and key is the landmark stored there |
| Images.RecordKeeps | WormBox_Analyzer.py:140 | filing leaves every landmark of another key as it was |
| Images.DistinctPlacesKept | WormBox_Analyzer.py:140-155 | one name at two coordinate texts gives two keys, and both landmarks are kept |
| Images.AddTo | WormBox_Analyzer.py:213 | `image.add_landmark` changes only that image's entry of the store |
| Images.ImageFor | WormBox_Analyzer.py:202-208 | returns `images[filename]`, or a fresh image filed under the name |
| Images.FileLandmark | WormBox_Analyzer.py:201-213 | the loop body after reading: the store becomes the store with the record filed |
| Images.ReadLineInto | WormBox_Analyzer.py:197-213 | one line: succeeds exactly when the read of the lines so far still succeeds, and the images hold its result |
| Images.ReadStep | WormBox_Analyzer.py:197-213 | line `li` of a file: an error there ends the read of the whole input |
| Images.ReadLines | WormBox_Analyzer.py:196-214 | one file: succeeds exactly when all lines so far read, and the images hold what they file |
| Images.ParseData | WormBox_Analyzer.py:180-216 | `parse_data` succeeds exactly when every line of every file reads; the images are fresh and hold what those records file |
| Aspects.Distance | WormBox_Analyzer.py:76-78 | definition of `get_distance`: the host's square root of the summed squared coordinate differences |
| Aspects.Legs | WormBox_Analyzer.py:99-106 | the chain loop measures each landmark to the next: n - 1 legs, none for fewer than two |
| Aspects.Distances | WormBox_Analyzer.py:99-106 | the loop over `enumerate(self.landmarks)` produces exactly those legs |
| Aspects.ChainValue | WormBox_Analyzer.py:99-107 | definition of `sum(distances)` over the legs; `Aspects.ChainValueIs` gives its cases |
| Aspects.ChainValueIs | WormBox_Analyzer.py:99-107 | fewer than two landmarks give the int 0; otherwise the float sum of the legs |
| Aspects.ChainSplits | WormBox_Analyzer.py:99-107 | a chain through x is the chain up to x plus the chain from x |
| Aspects.ChainReversed | WormBox_Analyzer.py:99-107 | a chain walked backwards has the same length |
| Aspects.Matches | WormBox_Analyzer.py:32-36 | the landmarks one requested name connects all come from the image |
| Aspects.MatchesAre | WormBox_Analyzer.py:32-36 | a name connects exactly the landmarks of that name, or for `count` those named like the aspect |
| Aspects.Connected | WormBox_Analyzer.py:29-37 | definition: the matches of each requested name, the names in config order; its properties are the lemmas below |
| Aspects.MissingNameConnectsNothing | WormBox_Analyzer.py:31-36 | a name no landmark has connects nothing |
| Aspects.UniqueNameConnectsOne | WormBox_Analyzer.py:31-36 | a name held by one landmark connects that landmark alone |
| Aspects.ConnectedFollowsConfig | WormBox_Analyzer.py:31-36 | with unique names, the j-th connected landmark is the one of the j-th requested name |
| Aspects.ConnectedHas | WormBox_Analyzer.py:31-36 | everything a requested name connects is connected |
| Aspects.Pick | WormBox_Analyzer.py:69-71 | definition of the scan for one variable: the last aspect of its name, else the previous `selected` |
| Aspects.Picks | WormBox_Analyzer.py:64-74 | one aspect per variable, or UnboundLocalError |
| Aspects.Bindings | WormBox_Analyzer.py:72 | definition of `values[var] = selected.value`, variable after variable; `Aspects.BindingsBind` gives each binding |
| Aspects.BindingsBind | WormBox_Analyzer.py:66-72 | each variable is bound to the value of the aspect selected for its last occurrence |
| Aspects.PickLastMatch | WormBox_Analyzer.py:69-71 | the last aspect of the variable's name is selected |
| Aspects.PickStale | WormBox_Analyzer.py:69-71 | a variable no aspect has keeps the previous selection |
| Aspects.PickFound | WormBox_Analyzer.py:69-71 | a variable some aspect has is found |
| Aspects.PicksOk | WormBox_Analyzer.py:64-74 | the values are found exactly when the first variable names some aspect |
| Aspects.PicksFail | WormBox_Analyzer.py:64-74 | UnboundLocalError exactly when no aspect has the first variable's name |
| Aspects.PicksEach | WormBox_Analyzer.py:67-73 | each variable's aspect is scanned from the previous selection |
| Aspects.PicksLastWins | WormBox_Analyzer.py:68-71 | among pseudoreplicates the last aspect of the name wins |
| Aspects.PicksStale | WormBox_Analyzer.py:67-73 | a later variable naming no aspect silently reuses the previous one's aspect |
| Aspects.PicksErrorSticks | WormBox_Analyzer.py:66-72 | once a variable has failed to bind, the whole selection fails |
| Aspects.MathPart | WormBox_Analyzer.py:51-74 | definition of what `check_math` leaves: for an algebraic line, the substituted equation and the aspects selected, or the selection's UnboundLocalError |
| Aspects.Outcome | WormBox_Analyzer.py:80-124 | definition of the value `check_math`, `connect_landmarks` and `calculate` give an aspect; the lemmas below state its cases |
| Aspects.DistanceNAIffMissing | WormBox_Analyzer.py:99-124 | a distance aspect is NA exactly when connected and requested counts differ, else the chain |
| Aspects.SingleLandmarkIsZero | WormBox_Analyzer.py:99-107 | one requested landmark found once measures the int 0 |
| Aspects.MeristicCounts | WormBox_Analyzer.py:35-37 | a meristic aspect is its connected count, at least 1, never NA |
| Aspects.CountWithoutLandmarksIsNA | WormBox_Analyzer.py:35-37 | `count` with no landmark named like the aspect gives NA |
| Aspects.MissingMatchesCount | WormBox_Analyzer.py:32-36 | `count` finds nothing when no landmark is named like the aspect or `count` |
| Aspects.MathUnbound | WormBox_Analyzer.py:56-72 | an equation whose first variable names no earlier aspect raises UnboundLocalError |
| Aspects.MathEvaluates | WormBox_Analyzer.py:51-61 | otherwise the value is the host's evaluation of the substituted equation |
| Aspects.Aspect.constructor | WormBox_Analyzer.py:19-27 | a new aspect has its id and name, nothing connected, no value, and both flags off |
| Aspects.Aspect.AddLandmark | WormBox_Analyzer.py:39-41 | `add_landmark` appends |
| Aspects.Aspect.ConnectName | WormBox_Analyzer.py:32-37 | one requested name appends its matches; meristic once `count` matched |
| Aspects.Aspect.ConnectLandmarks | WormBox_Analyzer.py:29-37 | appends the connected landmarks of all names in config order; sets the meristic flag exactly on a count hit |
| Aspects.Aspect.GetAspectValues | WormBox_Analyzer.py:64-74 | binds the selected values, keeps the selected aspects, or fails with UnboundLocalError leaving them unchanged |
| Aspects.Aspect.CheckMath | WormBox_Analyzer.py:51-62 | a single placeholder name sets the substituted equation and the math flag; otherwise nothing changes |
| Aspects.Aspect.Check | WormBox_Analyzer.py:112-124 | definition of `check`: true for a meristic or algebraic aspect, else when as many landmarks connected as names were requested |
| Aspects.Aspect.Calculate | WormBox_Analyzer.py:80-124 | the count, the evaluated equation, the chain, or NA when `check` fails |
| Aspects.Select | WormBox_Analyzer.py:69-71 | the scan for one variable is `Pick` |
| Aspects.OutcomeOfParts | WormBox_Analyzer.py:51-124 | the outcome of a line is determined by the flags `check_math` and `connect_landmarks` set |
| Aspects.Evaluate | WormBox_Analyzer.py:260-266 | one aspect on one image: the outcome of its line on the image's landmarks and earlier aspects |
| Aspects.Measure | WormBox_Analyzer.py:265-266 | `connect_landmarks` then `calculate` give the count, equation, chain or NA |
| Config.FromFields | WormBox_Analyzer.py:284-291 | definition: the name and landmark names of the `:`-fields, stripped, with their id; IndexError without a second field |
| Config.StripEach | WormBox_Analyzer.py:289 | each landmark name is its piece, stripped |
| Config.ParseConfigLine | WormBox_Analyzer.py:275-293 | `parse_config_line` succeeds exactly when the line has a `:`, else IndexError |
| Config.ConfigLineShape | WormBox_Analyzer.py:284-291 | name and landmark names carry no separator and no surrounding space, with at least one landmark name |
| Config.NamesShape | WormBox_Analyzer.py:289 | the stripped comma pieces of a field carry no separator and no surrounding space |
| Config.IdDetermines | WormBox_Analyzer.py:291 | two lines with the same id parse identically |
| Config.IdSplits | WormBox_Analyzer.py:291 | the id splits back into the name and the landmark names |
| Config.ParseConfigLineReads | WormBox_Analyzer.py:275-293 | `name:p1,p2,...` reads as the stripped name, the stripped pieces and their id |
| Config.NewlineIgnored | WormBox_Analyzer.py:281 | a trailing newline does not change the parse |
| Config.SpacesIgnored | WormBox_Analyzer.py:248-250 | lines differing only in spaces around the name and the landmark names parse alike |
| Config.LineReads | WormBox_Analyzer.py:284-291 | a two-field line reads as its stripped name and pieces |
| Config.IsComment | WormBox_Analyzer.py:255 | definition of `line.startswith('#')` |
| Config.Parsed | WormBox_Analyzer.py:254-257 | the config lines read, at most one per line |
| Config.ParsedOk | WormBox_Analyzer.py:254-257 | the file parses exactly when every line is a comment or has a `:`; blank lines fail |
| Config.ParsedLine | WormBox_Analyzer.py:254-257 | each non-comment line contributes its own config line, in file order |
| Config.ParsedComment | WormBox_Analyzer.py:255 | a comment contributes nothing |
| Config.ParsedStep | WormBox_Analyzer.py:254-257 | one more line: a comment keeps, a good line appends, a bad line fails |
| Config.ParsedErrorSticks | WormBox_Analyzer.py:257 | a failing line fails the whole file |
| Config.Configure | WormBox_Analyzer.py:260-267 | evaluating the lines on one image keeps its aspects keyed by id |
| Config.Ids | WormBox_Analyzer.py:291 | every line's id is among the ids |
| Config.ConfigureKeys | WormBox_Analyzer.py:267 | an image ends with one aspect per distinct id, besides those it had |
| Config.ConfigureStores | WormBox_Analyzer.py:260-267 | the aspect under an id is its last line evaluated on the aspects stored before it |
| Config.ConfigureStep | WormBox_Analyzer.py:260-267 | the last line is evaluated on what earlier lines stored and stored under its id |
| Config.ConfigureErrorSticks | WormBox_Analyzer.py:260-266 | a failing line fails the rest of the config on that image |
| Config.ConfigureImage | WormBox_Analyzer.py:261-267 | one line on one image succeeds exactly when the config so far evaluates, and the image then holds its aspects |
| Config.TemplatesSnoc | WormBox_Analyzer.py:270-271 | one more template for one more line |
| Config.ConfigureNext | WormBox_Analyzer.py:260-267 | one more image through the inner loop; the others are untouched |
| Config.ConfigureImages | WormBox_Analyzer.py:260-267 | one line on every image, or an image on which the config fails |
| Config.ConfigureFailStops | WormBox_Analyzer.py:260-266 | a line that fails on an image fails the whole config there |
| Config.ConfigureLine | WormBox_Analyzer.py:255-267 | a comment is skipped; any other line is parsed and evaluated on every image, or the failure is reported |
| Config.LineFailStops | WormBox_Analyzer.py:254-267 | a failing line fails the whole file |
| Config.ReadConfigLine | WormBox_Analyzer.py:254-271 | the loop body: the config and templates grow by the line, or the whole file fails |
| Config.KeepTemplate | WormBox_Analyzer.py:270-271 | one fresh template with the line's id and name is appended |
| Config.ParseConfig | WormBox_Analyzer.py:230-273 | succeeds exactly when the file parses and evaluates on every image; images keep their landmarks and hold the config's aspects; one fresh template per line |
| Report.Header | WormBox_Analyzer.py:306-315 | definition: the names at their first occurrence, in order; `Report.HeaderKeeps` and `Report.HeaderOrder` state what it holds |
| Report.HeaderKeeps | WormBox_Analyzer.py:306-315 | every name is kept, nothing is added, each label appears once |
| Report.HeaderOrder | WormBox_Analyzer.py:306-315 | the labels come in the order of first occurrence |
| Report.First | WormBox_Analyzer.py:310-311 | the first position of a name holds it, with no earlier occurrence |
| Report.FirstUnique | WormBox_Analyzer.py:310-311 | the position with no earlier occurrence is the first |
| Report.BuildHeader | WormBox_Analyzer.py:306-315 | the `known`-set loop computes the header |
| Report.ValuesNamed | WormBox_Analyzer.py:339-343 | an image's values of one name, no more than it has aspects |
| Report.GroupIs | WormBox_Analyzer.py:339-343 | `image_data` has a list exactly for the names present, holding their values in order |
| Report.GroupSnoc | WormBox_Analyzer.py:340-343 | one more aspect appends its value to its name's list |
| Report.GroupByName | WormBox_Analyzer.py:337-343 | the loop fills `image_data` |
| Report.Numbers | WormBox_Analyzer.py:351 | stripping NAs never lengthens a list |
| Report.NumbersEmpty | WormBox_Analyzer.py:351-356 | nothing is left exactly when all values are NA |
| Report.NumbersFrom | WormBox_Analyzer.py:351 | every number left was a value |
| Report.NumbersHas | WormBox_Analyzer.py:366 | every number of a column is kept |
| Report.ColumnValue | WormBox_Analyzer.py:349-360 | definition of the pseudoreplicate rule: one value as it is; several stripped of NA and averaged, NA when none is left |
| Report.ColumnSingle | WormBox_Analyzer.py:358-360 | a single value passes through, NA included |
| Report.ColumnNA | WormBox_Analyzer.py:349-357 | pseudoreplicates give NA exactly when all are NA |
| Report.ColumnWithin | WormBox_Analyzer.py:349-357 | the average of pseudoreplicates lies within bounds of their values |
| Report.ImageRow | WormBox_Analyzer.py:345-361 | definition: KeyError when a label is missing from `image_data`, else one `ColumnValue` per label |
| Report.RowOfImage | WormBox_Analyzer.py:345-361 | KeyError exactly when a label names no aspect of the image; else one value per label |
| Report.RowValues | WormBox_Analyzer.py:345-361 | the loop over the labels computes the row |
| Report.Rows | WormBox_Analyzer.py:333-362 | one row per image, one value per label |
| Report.RowsOk | WormBox_Analyzer.py:333-362 | the rows exist exactly when every label names an aspect of every image; else KeyError |
| Report.RowsAre | WormBox_Analyzer.py:333-362 | each row holds its image's value for each label |
| Report.RowsStop | WormBox_Analyzer.py:333-362 | the first image lacking a label stops the table |
| Report.Column | WormBox_Analyzer.py:357-360 | `data[name]` holds the label's value on each image |
| Report.OrderedData | WormBox_Analyzer.py:366 | `ordered_data` is each column's numbers, in label order |
| Report.SummaryOf | WormBox_Analyzer.py:369-387 | definition of one column's summary: nine NAs for no number, else `get_stats` |
| Report.SummaryCases | WormBox_Analyzer.py:369-387 | the NA summary exactly for an empty column; ZeroDivisionError exactly for one number |
| Report.SummaryBounds | WormBox_Analyzer.py:370-383 | a summary counts its numbers; min and max bound them; quartiles are in order |
| Report.ColumnAllNA | WormBox_Analyzer.py:366-387 | a column with only NAs is summarised as NA |
| Report.Summaries | WormBox_Analyzer.py:369-398 | one summary per column |
| Report.SummariesOk | WormBox_Analyzer.py:369-398 | the summaries exist exactly when no column holds a lone number |
| Report.SummariesAre | WormBox_Analyzer.py:369-398 | each summary is that of its column |
| Report.SummariesStop | WormBox_Analyzer.py:369-398 | the first failing column stops the summary |
| Report.SummarizeColumn | WormBox_Analyzer.py:370-387 | one turn of the summary loop |
| Report.SummarizeColumns | WormBox_Analyzer.py:369-398 | the summary loop |
| Report.Tabulate | WormBox_Analyzer.py:317-417 | definition of what `write_results` writes: header, file names, rows and summaries, or the first error; `Report.TabulateCases` states it |
| Report.TabulateCases | WormBox_Analyzer.py:317-417 | the table exists exactly when every image has every label and no column has a lone number; it holds the rows and the summaries |
| Report.Names | WormBox_Analyzer.py:320 | `[aspect.name for aspect in aspects]` |
| Report.ItemsOf | WormBox_Analyzer.py:339 | one aspect list per image, in file order |
| Report.ImageRows | WormBox_Analyzer.py:331-362 | the loop over the sorted images computes the rows |
| Report.WriteResults | WormBox_Analyzer.py:317-417 | `write_results` is the table of the header, the sorted file names, the rows and the summaries |
| Report.SortedFilesHold | WormBox_Analyzer.py:331 | the sorted file names are the images' own, each once |
| Stats.NumOrderTotal | WormBox_Analyzer.py:422 | ints and floats compare as a total preorder |
| Stats.SortNums | WormBox_Analyzer.py:422 | `values.sort()` is an ascending permutation |
| Stats.Ceil | WormBox_Analyzer.py:451 | `ceil` is the least whole number not below x |
| Stats.N4 | WormBox_Analyzer.py:444 | definition of `n4 = floor((n + 3) / 2.0) / 2.0` |
| Stats.Depths | WormBox_Analyzer.py:444-447 | the five depths of `fivenum` |
| Stats.FloorIndices | WormBox_Analyzer.py:450 | five floor indices |
| Stats.CeilIndices | WormBox_Analyzer.py:451 | five ceiling indices |
| Stats.HalfFloor | WormBox_Analyzer.py:444-451 | floor and ceiling of a half integer |
| Stats.DepthsAreHalves | WormBox_Analyzer.py:444-447 | every depth is a whole number of halves |
| Stats.TwiceDepthsClimb | WormBox_Analyzer.py:447 | doubled depths climb from 2 to 2n |
| Stats.IndicesFromTwice | WormBox_Analyzer.py:450-451 | each index is a halved doubled depth, rounded, less one |
| Stats.FivenumIndices | WormBox_Analyzer.py:444-455 | for n ≥ 1 every index is in [0, n - 1]; the index pairs are equal or adjacent; min at 0, max at n - 1; indices never decrease |
| Stats.Fivenum | WormBox_Analyzer.py:454-459 | five numbers |
| Stats.FivenumOrdered | WormBox_Analyzer.py:444-466 | the five numbers of a sorted column climb from its first value to its last |
| Stats.Squares | WormBox_Analyzer.py:434-436 | one squared deviation per value |
| Stats.SquaresNonNegative | WormBox_Analyzer.py:437-438 | the sum of squares is never negative, so `sqrt` gets a non-negative radicand |
| Stats.SquaredDeviations | WormBox_Analyzer.py:434-436 | the `sums` loop computes the squared deviations |
| Stats.SquaresSnoc | WormBox_Analyzer.py:435-436 | one more value appends its squared deviation |
| Stats.SumOfPositives | WormBox_Analyzer.py:434-437 | a non-negative bound on every term |
| Stats.PopStdAsWritten | WormBox_Analyzer.py:438 | definition of `pop_std` as written, `sqrt(sum_sq / ((n - 1.0) / n))` |
| Stats.PopStd | WormBox_Analyzer.py:438 | the conventional sample standard deviation `sqrt(sum_sq / (n - 1))`, for comparison only |
| Stats.PopStdAsWrittenScaled | WormBox_Analyzer.py:438 | `pop_std`'s radicand is n times the Bessel-corrected variance |
| Stats.PopStdExample | WormBox_Analyzer.py:438 | for [1, 3], `pop_std` is sqrt 4 where the sample sd is sqrt 2 |
| Stats.PopStdOfStd | WormBox_Analyzer.py:437-438 | with an exact root, `pop_std` and `std` are non-negative and pop_std² (n - 1) = std² n² |
| Stats.RadicandsOf | WormBox_Analyzer.py:437-438 | the squares of `pop_std` and `std` scale back to the sum of squares |
| Stats.StatsOf | WormBox_Analyzer.py:419-468 | ZeroDivisionError exactly for at most one value |
| Stats.Describe | WormBox_Analyzer.py:428-466 | definition of the statistics of a sorted column of at least two values |
| Stats.StatsExtremes | WormBox_Analyzer.py:462-466 | min and max bound every value and are values |
| Stats.StatsOrdered | WormBox_Analyzer.py:428-466 | n is the count, and min ≤ 1st_q ≤ median ≤ 3rd_q ≤ max |
| Stats.MeanWithin | WormBox_Analyzer.py:431 | min ≤ mean ≤ max |
| Stats.DescribeSorted | WormBox_Analyzer.py:428-466 | on a sorted column: its count and mean, min and max at the ends, five numbers in order |
| Stats.SortedExtremes | WormBox_Analyzer.py:422 | the ends of a sorted permutation bound every value and are values |
| Stats.MeanOfSorted | WormBox_Analyzer.py:431 | the mean of a sorted column lies between its ends |
| Stats.GetStats | WormBox_Analyzer.py:419-468 | `get_stats` computes `StatsOf` |
| Legacy.DistanceMetric | WormBox_.py:24-26 | distance is symmetric and non-negative; a landmark is `sqrt(0)` from itself |
| Legacy.Predistances | WormBox_.py:28-36 | n - 1 consecutive distances, none for fewer than two |
| Legacy.Predistance | WormBox_.py:28-36 | definition of `get_predistance`: the `sum` of the consecutive distances |
| Legacy.GetPredistance | WormBox_.py:28-36 | the loop computes the chain length |
| Legacy.PredistanceShort | WormBox_.py:28-36 | fewer than two landmarks give the int 0 |
| Legacy.PredistanceSnoc | WormBox_.py:32-36 | one more landmark adds the distance to it |
| Legacy.PredistanceNonNegative | WormBox_.py:28-36 | a chain length is never negative |
| Legacy.Sd | WormBox_.py:183-191 | definition of `get_sd`: the square root of the mean squared deviation from the mean |
| Legacy.GetSd | WormBox_.py:183-191 | the loop computes the standard deviation |
| Legacy.SdNonNegative | WormBox_.py:183-191 | the sd is never negative |
| Legacy.SdConstant | WormBox_.py:183-191 | equal values have sd `sqrt(0)` |
| Legacy.MeanOfConstant | WormBox_.py:186 | the mean of equal values is that value |
| Legacy.SquaresAtMean | WormBox_.py:187-189 | equal values deviate by 0 from their common value |
| Legacy.NameAsWritten | WormBox_.py:15 | definition of line 15 as written, `id.split(',')[0]` |
| Legacy.NameAsWrittenOfId | WormBox_.py:15 | as written, an id `name:lm1,lm2` is named `name:lm1` |
| Legacy.SidesApartAsWritten | WormBox_.py:15 | as written, `side:1,2` and `side:5,4` are named `side:1` and `side:5`, so they never group |
| Legacy.NameOf | WormBox_.py:15 | the corrected name, `id.split(':')[0]` |
| Legacy.NameOfId | WormBox_.py:15 | with the corrected split, the id `name:lm1,lm2` is named `name` |
| Legacy.SidesTogether | WormBox_.py:15 | with the corrected split, both `side` lines are named `side` |
| Legacy.JoinFirst | WormBox_.py:167 | an id with two or more landmark names starts `name:lm1,` |
| Legacy.Distances | WormBox_.py:40-44 | one chain length per landmark set |
| Legacy.ChainLengths | WormBox_.py:40-44 | the loop of `calculate` computes those lengths |
| Legacy.Aspect.constructor | WormBox_.py:13-18 | a new aspect is named by `NameOf` of its id (the corrected line 15); no sets, value or sd |
| Legacy.Aspect.AddLandmark | WormBox_.py:20-22 | `add_landmark` appends one set |
| Legacy.Aspect.Calculate | WormBox_.py:38-47 | the value is the summed chain lengths; the sd is set only for more than two sets |
| Legacy.GroupBy | WormBox_.py:243-246 | definition of filling a dict of lists by `append`, creating a list on a key's first mention; also the shape of WormBox_.py:114-126 |
| Legacy.GroupByKeys | WormBox_.py:243-246 | the groups list every key once, exactly the items' keys |
| Legacy.GroupByMembers | WormBox_.py:243-246 | each group holds its items' values in order; nothing is overwritten or lost |
| Legacy.MembersNone | WormBox_.py:243-246 | a key no item has has no members |
| Legacy.MembersHave | WormBox_.py:243-246 | every item is kept in its key's group |
| Legacy.ReadLine | WormBox_.py:105-112 | a line reads exactly when its fields parse and both coordinates convert |
| Legacy.Image.constructor | WormBox_.py:52-54 | a new image has its name and no landmarks |
| Legacy.Image.AddLandmark | WormBox_.py:56-58 | `add_landmark` appends |
| Legacy.FileLandmark | WormBox_.py:114-126 | the loop body appends the landmark to its image, creating it on first mention; existing images are kept |
| Legacy.AppendTo | WormBox_.py:126 | appending to an existing image's list |
| Legacy.AddImage | WormBox_.py:117-121 | a fresh image is stored under its name with the landmark |
| Legacy.ViewPut | WormBox_.py:121 | storing a new image shows its landmarks under its name |
| Legacy.ParseData | WormBox_.py:87-128 | succeeds exactly when every line reads; the images hold each file's landmarks in line order |
| Legacy.DataLine | WormBox_.py:104-126 | one line: the read's result or error; the images hold one more record |
| Legacy.ReadAllStep | WormBox_.py:104 | reading one more line |
| Legacy.CollectSnoc | WormBox_.py:114-126 | one more record is appended under its image |
| Legacy.Select | WormBox_.py:175-178 | the selection is no longer than the image's landmarks |
| Legacy.SelectLandmarks | WormBox_.py:175-178 | the `lm_list` loop computes the selection |
| Legacy.SelectCounts | WormBox_.py:176-178 | every landmark of a requested name is kept as often as the image holds it, and no other |
| Legacy.SelectOrder | WormBox_.py:176-178 | the selection is a subsequence of the image's landmarks, in the image's order |
| Legacy.Selections | WormBox_.py:174-179 | one selected set per image, in the images' order |
| Legacy.AttachSets | WormBox_.py:174-179 | exactly one set is appended per image; value and sd untouched |
| Legacy.ParsedAsWritten | WormBox_.py:154-164 | definition of the config read as written: AttributeError at the first line that is not a comment |
| Legacy.AsWrittenFails | WormBox_.py:154-164 | as written, a file parses only when every line is a comment, and then yields nothing |
| Legacy.AsWrittenRejects | WormBox_.py:164 | every well-formed line is rejected as written but read by the corrected split |
| Legacy.ParsedWellFormed | WormBox_.py:157-167 | every parsed line has an id built from a name and landmark names without separators |
| Legacy.LineWellFormed | WormBox_.py:157-167 | a line that parses is well formed |
| Legacy.SameId | WormBox_.py:166-171 | two well-formed lines with one id are equal, so re-keying loses nothing |
| Legacy.MakeAspect | WormBox_.py:168-179 | a fresh aspect of the line, with one set per image |
| Legacy.AspectStored | WormBox_.py:166-171 | storing under the id keeps one aspect per id, the last line's |
| Legacy.StoreAspect | WormBox_.py:166-179 | the loop body stores the line's aspect under its id |
| Legacy.ParseConfig | WormBox_.py:130-181 | succeeds exactly when the file parses; one fresh aspect per distinct id; comments skipped |
| Legacy.Outcomes | WormBox_.py:241-242 | one calculated outcome per aspect |
| Legacy.CalculateAll | WormBox_.py:241-246 | every aspect is calculated, and the outcomes are grouped by name in iteration order |
| Legacy.CalculateItems | WormBox_.py:241-246 | the first loop over the aspects |
| Legacy.ItemsDistinct | WormBox_.py:241 | aspects under different ids are distinct objects |
| Legacy.FileOutcome | WormBox_.py:242-246 | one turn calculates one aspect and files it |
| Legacy.GroupByStep | WormBox_.py:243-246 | one more item is filed under its key |
| Legacy.CalculateOne | WormBox_.py:242 | `calculate` on a fresh aspect gives its outcome |
| Legacy.MembersNamed | WormBox_.py:243-246 | every outcome filed under a name carries that name |
| Legacy.ValuesOf | WormBox_.py:250 | the values of a group, in order |
| Legacy.RowOf | WormBox_.py:248-257 | definition of one results line: mean and sd of pseudoreplicates, or a lone aspect's own numbers, TypeError without sd |
| Legacy.RowOfCases | WormBox_.py:248-257 | fails (TypeError) exactly for a lone aspect without sd; a lone aspect's numbers pass unchanged |
| Legacy.ReplicatesAgree | WormBox_.py:249-253 | agreeing pseudoreplicates report their common value with sd `sqrt(0)` |
| Legacy.RowSdNonNegative | WormBox_.py:252 | a pseudoreplicate group's sd is non-negative |
| Legacy.LoneAspect | WormBox_.py:45-46 | a lone aspect fails exactly when at most two images were read |
| Legacy.AllOkAre | WormBox_.py:248-257 | a run of writes succeeds exactly when each does, with their values in order |
| Legacy.AllOkStops | WormBox_.py:248-257 | the first failing write stops the run |
| Legacy.GroupRows | WormBox_.py:248-257 | one result line per group |
| Legacy.RowsAre | WormBox_.py:248-257 | the file is written exactly when every group is writable, one line per name; else TypeError |
| Legacy.WriteRows | WormBox_.py:248-257 | the second loop computes those lines |
| Legacy.Pseudoreplicates | WormBox_.py:241-249 | each name's list holds exactly its calculated aspects, in order |
| Legacy.AspectsReady | WormBox_.py:169-171 | the aspects `parse_config` makes are keyed by id and not yet calculated |
| Legacy.ResultsFileOk | WormBox_.py:241-257 | the results are written exactly when no aspect without sd is alone under its name; one line per distinct name |
| Legacy.WritableHolding | WormBox_.py:255-257 | a group is writable unless it is a lone aspect without sd |
| Legacy.Results | WormBox_.py:241-257 | the main block after parsing yields the results file of the calculated aspects |

## Left out

- File discovery and dialogs are not modelled. This covers `import_datafiles`,
  `import_data`, `get_results_filename`, `get_config_file`, the ImageJ
  dialogs and messages, and the opening and closing of files. The data and
  config files come in as lists of lines; `write_results` returns its table
  as values.
- Text formatting is not modelled: the `output.write` calls, `str()` of
  numbers, and `'%f'` of the earlier script's results. Only the `TypeError`
  of formatting a missing sd is kept.
- Floating point is modelled as real numbers, not IEEE doubles.
- `sqrt`, `float()`, `Template.substitute` and `eval` are parameters of the
  model (the `Host`), not definitions. In the source, `Template` substitutes
  `$name`, not `{name}`, so the equation is what that external call returns.
- Dictionary iteration order is one fixed admissible order (insertion order).
  Where a result depends on it, as listed above, the model gives the result for
  that order only.
- `Image.get_landmarks_names` (WormBox_Analyzer.py:146-149) is never called.
  `Landmark.__str__` and `get_distance`'s `**` operator are rendering and
  arithmetic detail; the distance is the host's `sqrt` of the squared
  differences.
- Stats.SortNums: `values.sort()` sorts in place; the model returns the
  sorted list as a value and does not model the mutation of the caller's list.
- Aspects.Aspect: the aspects that `get_aspect_values` selects are kept in an
  `operands` field, not appended to `landmarks`. Nothing reads them there,
  because an algebraic aspect passes `check` without looking at its landmarks.

## Findings

| source | as written | input that shows it | evidently intended | confidence | as-written member | corrected member |
|---|---|---|---|---|---|---|
| WormBox_.py:164 | `split_line.split(',')` calls `split` on the list `split_line` | any non-comment line, e.g. `width:2,4`, raises AttributeError | `split_line[1].split(',')`, as WormBox_Analyzer.py:289 does | high; not executed | Legacy.AsWrittenRejects | Legacy.ParseConfig |
| WormBox_.py:15 | `id.split(',')[0]` names an aspect by the id up to the first comma | `side:1,2` and `side:5,4`, the pseudoreplicate pair of the example at WormBox_.py:140-141, are named `side:1` and `side:5` and are never grouped | `id.split(':')[0]`, the aspect name, as `parse_config_line` of WormBox_Analyzer.py:287 takes it | high; not executed | Legacy.SidesApartAsWritten | Legacy.NameOfId |
