# YoloData: preparing a darknet dataset, modelled in Dafny

`create_dataset.py` defines the class `YoloData`. A user runs it from the
darknet directory to prepare a YOLO training run. It:

- reads every label file `data/obj/<stem>.txt` into the dictionary
  `dataset`, with one record `[class_id, x, y, w, h]` per line;
- counts how many records there are of each class of the catalogue
  `classes` (vetalas, draugar, aswang, jiangshi, beam, marker);
- creates an empty label file for every image `data/obj/<stem>.jpg` that has
  no entry in the dictionary;
- shuffles the image names and splits them into a training set and a test
  set at `int(percentage * len)`;
- writes the manifests `data/train.txt` and `data/test.txt`, one line
  `data/obj/<image>` per image.

The project has six modules:

- `Wrappers` (`wrappers.dfy`): the `Option` and `Result` types.
- `PyText` (`py_text.dfy`): the Python built-ins the tool uses, written out. These are `str.split`, `readlines`, `endswith`, `int()` of a float, and slice-bound clipping. It also defines `Concat`, the text that consecutive `write` calls produce, and `Join`, which states what `Split` undoes.
- `PyRandom` (`py_random.dfy`): `random.shuffle` as the in-place Fisher–Yates loop Python runs. The random numbers it draws are a parameter.
- `Labels` (`labels.dfy`): parsing of one label file.
- `DatasetModel` (`dataset_model.dfy`): functions that say what each operation computes, and lemmas about them.
- `CreateDataset` (`create_dataset.dfy`): the class `YoloData`. Its fields are `dataset`, `trainingSet` and `testSet`. Its methods have the source's loops. Each method is proved against specification functions: `ParseLabelFile` against `Labels.ParseRecords`, the shuffle in `DivideDataAtRandom` against `PyRandom.Shuffle`, and the others against the functions of `DatasetModel`.

The file system is a class `FileSystem`, which holds a map from paths to file
text. The methods that write files modify it. `os.listdir` returns names in
an order chosen by the operating system, so the listing of `data/obj` is a
parameter. `float()` on a token is a parameter `parse` of type
`string -> Option<Float>`. `Float` is `Finite(real)` or `NonFinite` (inf or
nan); `None` means `float()` raises `ValueError`. The dictionary is an ordered
map (`Dataset`): its keys in insertion order plus the records under each key.
`objects_count` and `define_training_set` visit the keys in that order, which
is the order of a dictionary from Python 3.7 on.

What the code does that a reader of the label format may not expect:

- A line is cut at every single space, and the tokens are not counted. So a
  line with fewer or more than five tokens loads as long as every token
  parses (`Labels.ParseLine`).
- A line keeps its newline, so the last token carries it.
- A blank line is the single token `"\n"`. It is not skipped: it fails when
  `float()` rejects that token (`Labels.BlankLineFails`).
- The class id is `int(float(token))`, which truncates toward zero. It is not
  checked against the catalogue while loading; only `objects_count` raises
  on an unknown class.
- The cut point is `int(percentage * len)`: truncation, not rounding. It
  follows Python's slicing rules. For a percentage in [-1, 0) the product
  truncates toward zero: when it truncates to 0 the training set is empty,
  otherwise the bound counts from the end of the list
  (`DatasetModel.CutOfNegativeFraction`).
- The default arguments (`percentage=0.8`, `name="train.txt"`) are not
  modelled separately: every method takes the percentage and the manifest
  name as arguments.
- `dataset` is never cleared. `load_data` adds keys to whatever it already
  holds, and a load that fails partway keeps the files before the failure.

## Model

| member | source | states |
|---|---|---|
| CreateDataset.YoloData.constructor | create_dataset.py:18-22 | a new instance starts with an empty dictionary and empty training and test sets |
| CreateDataset.YoloData.ParseLabelFile | create_dataset.py:46-50 | the loop over the lines of one file yields exactly `ParseRecords(ReadLines(content))`: one record per line in file order, or the error of the first line that fails |
| CreateDataset.YoloData.LoadData | create_dataset.py:33-54 | the new dictionary and the error, if any, are those of `Load` over the `.txt` entries of the listing, started from the old dictionary; on success the dictionary itself is returned; the dictionary stays well formed (distinct keys, matching the stored labels) |
| CreateDataset.FileSystem.constructor | create_dataset.py:46 | a file system holds exactly the given map from paths to file text (the files `open` reads and writes) |
| DatasetModel.DataPath | create_dataset.py:46 | definition, no contract: `data_folder + '/' + name`; `DataPathInjective` states that distinct names give distinct paths |
| DatasetModel.LabelPath | create_dataset.py:119 | definition, no contract: `data_folder + '/' + stem + '.txt'` |
| DatasetModel.ManifestPath | create_dataset.py:128 | definition, no contract: `'data/' + name` |
| PyText.EndsWith | create_dataset.py:40 | definition, no contract: `str.endswith`, the last characters equal the suffix |
| DatasetModel.Classes | create_dataset.py:9-16 | definition, no contract: the catalogue of class ids 0 to 5 and their names |
| DatasetModel.DataFolder | create_dataset.py:22 | definition, no contract: `data_folder`, `"data/obj"` |
| DatasetModel.Dataset.Valid | create_dataset.py:18 | definition, no contract: a dictionary's keys are distinct and are exactly the keys with stored records |
| CreateDataset.YoloData.Valid | create_dataset.py:18 | definition, no contract: the object's `dataset` is a well-formed dictionary |
| DatasetModel.TxtFiles | create_dataset.py:40 | a name is kept exactly when it is in the listing and ends with `.txt` |
| DatasetModel.Put | create_dataset.py:52 | `dataset[stem] = data`: the labels map is updated at that key, the earlier keys keep their order, and the dictionary stays well formed |
| DatasetModel.Load | create_dataset.py:40-52 | loading keeps the dictionary well formed and never drops or reorders an existing key |
| DatasetModel.LoadStep | create_dataset.py:42-52 | one loop step: a missing file stops the load with FileNotFound of its path; a file that does not parse stops it with the parse error; otherwise its records are stored under its stem and the loop goes on |
| DatasetModel.LoadSucceedsIff | create_dataset.py:40-52 | loading succeeds if and only if every listed `.txt` file exists and every line of each parses |
| DatasetModel.LoadLeavesOtherKeys | create_dataset.py:52 | a key that is not the stem of any listed `.txt` file keeps its presence and its records, whether the load fails or not (files after a failure are never read) |
| DatasetModel.LoadStoresEachFile | create_dataset.py:40-52 | after a successful load every listed file exists and the dictionary holds, under its stem, that file's records (one per line, in order) |
| DatasetModel.LoadKeys | create_dataset.py:40-52 | after a successful load the keys are exactly the earlier keys plus the stems of the `.txt` entries |
| DatasetModel.Stem | create_dataset.py:52 | `f[:-4]` followed by the last four characters gives back the name |
| DatasetModel.StemOfSuffixed | create_dataset.py:103 | the stem of a name with a four-character suffix is the name without it |
| DatasetModel.SameStemSameName | create_dataset.py:52 | two `.txt` names with the same stem are the same name, so a later file cannot overwrite an earlier file's entry |
| DatasetModel.DataPathInjective | create_dataset.py:46 | distinct names in the data folder have distinct paths |
| Labels.ParseTokens | create_dataset.py:48 | `[float(l) for l in tokens]` succeeds if and only if every token parses; each value is that token's float; a failure names a token that does not parse |
| Labels.ParseLine | create_dataset.py:48-49 | a line parses if and only if every space-separated token parses and the first is finite; the record's class id is the truncation of the first token and its fields are the other tokens, in order |
| Labels.BlankLineFails | create_dataset.py:47-48 | a blank line fails with `ValueError` of the token `"\n"` wherever `float()` rejects that token |
| Labels.ParseRecords | create_dataset.py:47-50 | the records of a file's lines succeed if and only if every line parses; on success there is one record per line, and record `i` is line `i`'s; a failure is the error of one of the lines (`ParseRecordsFirstFailure`: of the first) |
| Labels.ParseRecordsFirstFailure | create_dataset.py:47-50 | a file that does not parse fails with the error of its first line that does not parse: every line before it parses |
| Labels.ParseRecordsStep | create_dataset.py:47-50 | one step of the line loop: a failing line stops the parse with its error; otherwise its record comes before the records of the following lines |
| Labels.PrependTwice | create_dataset.py:50 | records appended in two steps equal those appended in one |
| PyText.Split | create_dataset.py:48 | `line.split(' ')` gives at least one piece; the pieces hold no space, and joining them with spaces gives the line back |
| PyText.SplitOfFree | create_dataset.py:48 | a string without the separator splits into itself alone, so a blank line is the one token `"\n"` |
| PyText.SplitAtSeparator | create_dataset.py:48 | a separator-free piece, the separator and a rest split into that piece followed by the pieces of the rest |
| PyText.SplitJoin | create_dataset.py:48 | splitting undoes joining pieces that hold no separator (the inverse of `Split`'s join property) |
| PyText.ReadLines | create_dataset.py:47 | `readlines()` loses nothing (the lines concatenate to the text); every line is nonempty with no newline before its end; every line but the last ends with a newline |
| PyText.ReadLinesPrepend | create_dataset.py:47 | a complete line followed by more text reads as that line followed by the lines of the rest |
| PyText.ReadLinesConcat | create_dataset.py:47 | reading back the concatenation of complete lines gives exactly those lines (the inverse of `ReadLines`' concatenation property) |
| PyText.Concat | create_dataset.py:129-130 | definition, no contract: the text written by consecutive `write` calls, one part after another |
| PyText.ConcatSnoc | create_dataset.py:129-130 | appending a part to the end appends its text to the joined text |
| PyText.Trunc | create_dataset.py:49 | `int(x)` of a finite float truncates toward zero: it lies within one of `x`, on the side of zero |
| PyText.SliceIndex | create_dataset.py:89 | a slice bound in `0..n` is itself; a negative bound no further back than `-n` counts from the end; beyond either end it is clipped to `0` or `n` |
| CreateDataset.YoloData.AddTallies | create_dataset.py:72-73 | the inner counting loop succeeds if and only if every record's class is in the catalogue; it adds each class's count to its tally; a failure is `KeyError` of the first unknown class id |
| CreateDataset.YoloData.TallyClasses | create_dataset.py:62-73 | the outer counting loop succeeds if and only if every record under the keys has a catalogue class; each tally is the number of records with that class; a failure is the first unknown class id in visiting order |
| CreateDataset.YoloData.ObjectsCount | create_dataset.py:57-77 | the result maps exactly the six class names to the number of records with that class; the six counts add up to the number of records; it fails, with the first unknown class id, if and only if some record's class is outside the catalogue |
| DatasetModel.RecordsOf | create_dataset.py:71-72 | definition, no contract: the records under the keys, key after key in key order, each key's records in file order; `RecordsOfPrefix` states the prefix property the loops use |
| DatasetModel.Records | create_dataset.py:71-72 | definition, no contract: every record of the dictionary in the order `objects_count` visits them |
| DatasetModel.RecordsOfPrefix | create_dataset.py:71-72 | the records of the first keys and then the next key's are a prefix of all records |
| DatasetModel.AllInCatalogue | create_dataset.py:73 | definition, no contract: every record's class id is a key of the catalogue, so `classes_count[obj[0]]` raises no `KeyError` |
| DatasetModel.TalliesAppend | create_dataset.py:71-73 | tallies over one more key's records extend the tallies over the earlier keys |
| DatasetModel.RecordPosition | create_dataset.py:71-73 | the first unknown record of one key is at a known position among all records, and every record before it is in the catalogue |
| DatasetModel.PrefixAgrees | create_dataset.py:71-72 | a sequence that extends a prefix agrees with it up to that prefix |
| DatasetModel.Count | create_dataset.py:73 | a class is tallied at most once per record |
| DatasetModel.CountZero | create_dataset.py:73 | a tally is zero if and only if no record has that class |
| DatasetModel.CountSnoc | create_dataset.py:73 | one more record adds one to its own class's tally and nothing to the others |
| DatasetModel.CountAppend | create_dataset.py:71-73 | tallies add up over consecutive runs of records, and the records are all in the catalogue if and only if both runs are |
| DatasetModel.CountsConserve | create_dataset.py:62-73 | when every record's class is in the catalogue, the six tallies add up to the number of records (no record is lost or counted twice) |
| DatasetModel.ByName | create_dataset.py:75 | the comprehension's keys are exactly the six class names, and each name maps to its class's tally |
| PyRandom.ValidDraws | create_dataset.py:85 | definition, no contract: one draw per position, the draw at step `i` within `0..i`, the range of `randbelow(i + 1)`; the only assumption made about the random numbers |
| PyRandom.Swap | create_dataset.py:85 | one swap exchanges the two positions, leaves every other position alone and keeps the multiset |
| PyRandom.StepsDown | create_dataset.py:85 | the remaining shuffle steps keep the length and the multiset of the list |
| PyRandom.Shuffle | create_dataset.py:85 | `random.shuffle` leaves a permutation of the list: same length, same multiset |
| PyRandom.ShuffleInPlace | create_dataset.py:85 | the in-place swap loop leaves in the array exactly `Shuffle` of its old contents, a permutation of them |
| CreateDataset.YoloData.DivideDataAtRandom | create_dataset.py:80-91 | the list is shuffled in place into a permutation of itself; the first split is the shuffled list up to `int(percentage*len)` under slice rules, the second is the rest, and together they are the shuffled list |
| DatasetModel.Cut | create_dataset.py:88-89 | the cut point always lies within the list |
| DatasetModel.CutInUnitRange | create_dataset.py:88 | for a fraction in [0, 1] the first split has the floor of that fraction of the elements; 0 gives an empty training set and 1 an empty test set |
| DatasetModel.CutOfNegativeFraction | create_dataset.py:88-89 | for a fraction in [-1, 0) the truncated bound lies in `-n..0`; when it is 0 the first split is empty, otherwise the cut is `n` plus the bound, counted from the end |
| DatasetModel.SplitIsPartition | create_dataset.py:88-89 | the two splits of a shuffled list without repetitions hold every element exactly once between them and share none |
| DatasetModel.DistinctOnce | create_dataset.py:103 | a list without repetitions holds each element exactly once |
| DatasetModel.ImageNames | create_dataset.py:103 | one image name per key, in key order, each ending in `.jpg` with the key as its stem |
| DatasetModel.ImageNamesDistinct | create_dataset.py:103 | distinct keys give distinct image names |
| CreateDataset.YoloData.DefineTrainingSet | create_dataset.py:94-107 | the training set followed by the test set is the shuffle of the image names of the keys; the training set has `Cut(percentage, len)` names; every image name is in exactly one of the two sets; both sets are stored and returned |
| DatasetModel.JpgStems | create_dataset.py:115 | every `.jpg` entry's stem is kept, and every kept stem plus `.jpg` is in the listing |
| DatasetModel.WithEmptyLabels | create_dataset.py:117-120 | definition, no contract: the file map after the loop, one stem at a time; `EmptyLabelsAt` states it path by path |
| CreateDataset.YoloData.CreateEmptyTxt | create_dataset.py:110-120 | the new files are `WithEmptyLabels` of the old files: an empty `data/obj/<stem>.txt` for each listed image stem without an entry; the object is unchanged |
| DatasetModel.EmptyLabelsAt | create_dataset.py:117-120 | a path exists afterwards if and only if it existed or is the label file of an image without an entry; exactly those label files are empty, and every other file keeps its text |
| DatasetModel.EmptyLabelsIdempotent | create_dataset.py:117-120 | creating the empty label files a second time changes nothing |
| DatasetModel.EmptyLabelsKeepListedLabels | create_dataset.py:115-120 | when every listed label file's stem is in the dictionary, no listed label file is overwritten |
| DatasetModel.LoadThenEmptyLabels | create_dataset.py:115-120 | after a successful load of the same listing, creating empty label files overwrites none of the label files that were loaded |
| CreateDataset.YoloData.CreateSetTxt | create_dataset.py:123-130 | `data/<name>` afterwards holds exactly `Manifest(entries)`, one line `data/obj/<entry>` per entry in order; every other file is unchanged |
| DatasetModel.ManifestLine | create_dataset.py:130 | definition, no contract: `data_folder + '/' + entry + '\n'` |
| DatasetModel.Manifest | create_dataset.py:128-130 | definition, no contract: the text of the manifest, the lines of the entries in order; `ManifestRoundTrip` states that it reads back to the entries |
| DatasetModel.ManifestLines | create_dataset.py:129-130 | one manifest line per entry |
| DatasetModel.ManifestSnoc | create_dataset.py:129-130 | writing one more entry appends its line to the manifest |
| DatasetModel.EntryOf | create_dataset.py:130 | definition, no contract: a manifest line without the folder prefix and the newline |
| DatasetModel.ReadManifest | create_dataset.py:130 | definition, no contract: the entries read back from a manifest, one per line |
| DatasetModel.ManifestRoundTrip | create_dataset.py:128-130 | reading a manifest back line by line gives one line per entry and, with the folder prefix and newline removed, the entries themselves, for entries without a newline |
| CreateDataset.YoloData.DropObjects | create_dataset.py:134-139 | `drop_objects` is unimplemented and changes neither the object nor the file system |

## Left out

- `darknet_video.py` and `pyyolo.py`: camera capture, calls into the native detection library and drawing are foreign calls and I/O. They are not part of this model.
- `__init__`: the darknet path and `os.chdir` are not modelled. Every path is relative to the darknet directory, the root of the `FileSystem` map.
- `classes`, `dataset`, `training_set` and `test_set` are class attributes, so all instances share one `dataset` dictionary. The model gives each `YoloData` its own `dataset`. The effect of loading across instances is not modelled.
- The `__main__` driver is not modelled. It only calls the operations in sequence with the manifest names `train.txt` and `test.txt` and the fraction 0.85.
- Dictionary order: the model fixes the insertion order of `dataset`. On Python 2, which the `__future__` import at create_dataset.py:1 caters for, dictionary order is arbitrary. The order changes only which unknown class id `objects_count` reports first and the order of the image names before the shuffle.
- `CreateDataset.YoloData.LoadData`: `load_data` returns the dictionary object itself, so a caller's reference sees later loads too. The model returns the dictionary's value at the time of the return, and this aliasing is not modelled.
- `os.listdir(data_folder)` raises when `data/obj` does not exist (create_dataset.py:40 and 115). The listing is a parameter, so the model cannot express that failure.
- `random.shuffle`'s generator is left out: the draws `randbelow(i + 1)` are a parameter. The model proves that every shuffle is a permutation, not that every permutation is equally likely.
- `float()` is a parameter, so which strings parse as numbers (for instance `"0.5\n"` with its newline) is not modelled.
- Floating point: percentages and label values are reals, so the rounding of `percentage * len(data)` in binary floating point is not modelled. A NaN or infinite percentage, which makes `int()` raise, cannot be expressed.
- Text decoding and universal-newline translation of `open()` are not modelled. A file's text is what `readlines` splits at `'\n'`.
- An `open` that fails for a reason other than a missing file is not modelled: a directory named like a label file, or missing permissions. Failure to create a file in `create_empty_txt` or `create_set_txt` is not modelled either.
- `DatasetModel.Load`: its own contract only states well-formedness and key order. What it stores, and when it succeeds, are stated by `LoadSucceedsIff`, `LoadStoresEachFile`, `LoadKeys` and `LoadLeavesOtherKeys`.
- `CreateDataset.YoloData.DropObjects`: the docstring describes dropping data and a trash folder, but the Python body is `pass`. The model states only that nothing changes.
