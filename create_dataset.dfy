/**
 * `YoloData`: prepares a darknet dataset. It loads the label files of
 * `data/obj`, tallies the objects per class, creates empty label files for
 * unlabelled images, splits the images at random into a training and a test
 * set, and writes the two manifests.
 */
module CreateDataset {
  import opened Wrappers
  import opened PyText
  import opened PyRandom
  import opened Labels
  import opened DatasetModel

  /** The files under the darknet directory, by path relative to it, with their text. */
  class FileSystem {
    var files: map<string, string>

    constructor (files: map<string, string>)
      ensures this.files == files
    {
      this.files := files;
    }
  }

  class YoloData {
    /** The file system seen from the darknet directory. */
    const fs: FileSystem
    /** `dataset`: the records of every label file loaded so far, by stem. */
    var dataset: Dataset
    var trainingSet: seq<string>
    var testSet: seq<string>

    ghost predicate Valid()
      reads this
    {
      dataset.Valid()
    }

    constructor (fs: FileSystem)
      ensures this.fs == fs
      ensures dataset == Dataset([], map[]) && trainingSet == [] && testSet == []
      ensures Valid()
    {
      this.fs := fs;
      dataset := Dataset([], map[]);
      trainingSet, testSet := [], [];
    }

    /** The inner loop of `load_data`: the records of one label file, one per line in order. */
    static method ParseLabelFile(content: string, parse: Parser) returns (r: Result<seq<Record>, LoadError>)
      ensures r == ParseRecords(ReadLines(content), parse)
    {
      var lines := ReadLines(content);
      var data: seq<Record> := [];
      var i := 0;
      assert lines[i..] == lines;
      ghost var whole := ParseRecords(lines, parse);
      if whole.Success? {
        assert data + whole.value == whole.value;
      }
      while i < |lines|
        invariant 0 <= i <= |lines|
        invariant ParseRecords(lines, parse) == Prepend(data, ParseRecords(lines[i..], parse))
      {
        ParseRecordsStep(lines, i, parse);
        var d := ParseLine(lines[i], parse);
        if d.Failure? {
          return Failure(d.error);
        }
        PrependTwice(data, [d.value], ParseRecords(lines[i + 1..], parse));
        data := data + [d.value];
        i := i + 1;
      }
      assert lines[i..] == [];
      assert data + [] == data;
      r := Success(data);
    }

    /**
     * `load_data`: stores the records of every `.txt` entry of the listing of
     * `data/obj` under its stem, in place, over whatever the dictionary
     * already held, and returns the dictionary. The first file that is
     * missing or does not parse raises; the files before it stay stored.
     */
    method LoadData(listing: seq<string>, parse: Parser) returns (r: Result<Dataset, LoadError>)
      requires Valid()
      modifies this`dataset
      ensures Valid()
      ensures Load(old(dataset), TxtFiles(listing), fs.files, parse)
           == Loading(dataset, if r.Success? then None else Some(r.error))
      ensures r.Success? ==> r.value == dataset
    {
      var files := TxtFiles(listing);
      var contents := fs.files;
      var i := 0;
      while i < |files|
        invariant 0 <= i <= |files|
        invariant dataset.Valid()
        invariant Load(old(dataset), files, contents, parse) == Load(dataset, files[i..], contents, parse)
      {
        LoadStep(dataset, files, i, contents, parse);
        var f := files[i];
        var path := DataPath(f);
        if path !in contents {
          return Failure(FileNotFound(path));
        }
        var data := ParseLabelFile(contents[path], parse);
        if data.Failure? {
          return Failure(data.error);
        }
        dataset := Put(dataset, Stem(f), data.value);
        i := i + 1;
      }
      assert files[i..] == [];
      r := Success(dataset);
    }

    /**
     * The inner loop of `objects_count`: adds the records `objs` to the
     * tallies `counts`, or stops at the first class id outside the catalogue.
     */
    static method AddTallies(counts: map<int, nat>, objs: seq<Record>) returns (r: Result<map<int, nat>, CountError>)
      requires counts.Keys == Classes.Keys
      ensures r.Success? <==> AllInCatalogue(objs)
      ensures r.Success? ==>
        r.value.Keys == Classes.Keys && forall c | c in Classes :: r.value[c] == counts[c] + Count(objs, c)
      ensures r.Failure? ==>
        && r.error.classId !in Classes
        && exists m | 0 <= m < |objs| :: objs[m].classId == r.error.classId
                                      && AllInCatalogue(objs[..m])
    {
      var tally := counts;
      var j := 0;
      while j < |objs|
        invariant 0 <= j <= |objs|
        invariant tally.Keys == Classes.Keys
        invariant forall c | c in Classes :: tally[c] == counts[c] + Count(objs[..j], c)
        invariant AllInCatalogue(objs[..j])
      {
        var obj := objs[j];
        if obj.classId !in tally {
          return Failure(UnknownClass(obj.classId));
        }
        assert objs[..j + 1] == objs[..j] + [obj];
        CountSnoc(objs[..j], obj);
        tally := tally[obj.classId := tally[obj.classId] + 1];
        j := j + 1;
      }
      assert objs[..j] == objs;
      r := Success(tally);
    }

    /**
     * The loop of `objects_count`: the tally of each catalogue class over the
     * records under `keys`, or the first class id outside the catalogue.
     */
    static method TallyClasses(keys: seq<string>, labels: map<string, seq<Record>>)
      returns (r: Result<map<int, nat>, CountError>)
      requires forall k | k in keys :: k in labels
      ensures r.Success? <==> AllInCatalogue(RecordsOf(keys, labels))
      ensures r.Success? ==>
        r.value.Keys == Classes.Keys && forall c | c in Classes :: r.value[c] == Count(RecordsOf(keys, labels), c)
      ensures var rs := RecordsOf(keys, labels);
        r.Failure? ==>
          && r.error.classId !in Classes
          && exists m | 0 <= m < |rs| :: rs[m].classId == r.error.classId
                                      && AllInCatalogue(rs[..m])
    {
      var counts: map<int, nat> := map[0 := 0, 1 := 0, 2 := 0, 3 := 0, 4 := 0, 5 := 0];
      var i := 0;
      while i < |keys|
        invariant 0 <= i <= |keys|
        invariant Tallies(counts, RecordsOf(keys[..i], labels))
        invariant AllInCatalogue(RecordsOf(keys[..i], labels))
      {
        ghost var seen := RecordsOf(keys[..i], labels);
        var objs := labels[keys[i]];
        assert keys[..i + 1][..i] == keys[..i];
        assert RecordsOf(keys[..i + 1], labels) == seen + objs;
        var next := AddTallies(counts, objs);
        if next.Failure? {
          ghost var m :| 0 <= m < |objs| && objs[m].classId == next.error.classId && AllInCatalogue(objs[..m]);
          RecordPosition(keys, labels, i, m);
          return Failure(next.error);
        }
        TalliesAppend(counts, next.value, seen, objs);
        CountAppend(seen, objs);
        counts := next.value;
        i := i + 1;
      }
      assert keys[..i] == keys;
      r := Success(counts);
    }

    /**
     * `objects_count`: how many records of the dictionary have each class of
     * the catalogue, by class name. A class id outside the catalogue raises.
     */
    method ObjectsCount() returns (r: Result<map<string, nat>, CountError>)
      requires Valid()
      ensures r.Success? <==> AllInCatalogue(Records(dataset))
      ensures r.Success? ==>
        && r.value.Keys == Classes.Values
        && forall c | c in Classes :: r.value[Classes[c]] == Count(Records(dataset), c)
      ensures r.Success? ==>
        r.value[Classes[0]] + r.value[Classes[1]] + r.value[Classes[2]] + r.value[Classes[3]]
          + r.value[Classes[4]] + r.value[Classes[5]] == |Records(dataset)|
      ensures var rs := Records(dataset);
        r.Failure? ==>
          && r.error.classId !in Classes
          && exists m | 0 <= m < |rs| :: rs[m].classId == r.error.classId
                                      && AllInCatalogue(rs[..m])
    {
      var tally := TallyClasses(dataset.keys, dataset.labels);
      if tally.Failure? {
        return Failure(tally.error);
      }
      CountsConserve(Records(dataset));
      r := Success(ByName(tally.value));
    }

    /**
     * `divide_data_at_random`: shuffles `data` in place and cuts it at
     * `int(percentage * len(data))`.
     */
    static method DivideDataAtRandom(data: array<string>, percentage: real, draws: seq<nat>)
      returns (split1: seq<string>, split2: seq<string>)
      requires ValidDraws(draws, data.Length)
      modifies data
      ensures data[..] == Shuffle(old(data[..]), draws)
      ensures multiset(data[..]) == multiset(old(data[..]))
      ensures split1 == data[..Cut(percentage, data.Length)]
      ensures split2 == data[Cut(percentage, data.Length)..]
      ensures split1 + split2 == data[..]
    {
      ShuffleInPlace(data, draws);
      var com := Trunc(percentage * data.Length as real);
      var k := SliceIndex(com, data.Length);
      split1, split2 := data[..k], data[k..];
      assert split1 + split2 == data[..];
    }

    /**
     * `define_training_set`: splits the image names of the dictionary's keys
     * at random into the training set and the test set, and returns both.
     */
    method DefineTrainingSet(percentage: real, draws: seq<nat>) returns (training: seq<string>, test: seq<string>)
      requires Valid()
      requires ValidDraws(draws, |dataset.keys|)
      modifies this`trainingSet, this`testSet
      ensures training == trainingSet && test == testSet
      ensures trainingSet + testSet == Shuffle(ImageNames(dataset.keys), draws)
      ensures |trainingSet| == Cut(percentage, |dataset.keys|)
      ensures multiset(trainingSet) + multiset(testSet) == multiset(ImageNames(dataset.keys))
      ensures forall x | x in multiset(ImageNames(dataset.keys)) :: (multiset(trainingSet) + multiset(testSet))[x] == 1
      ensures forall x | x in trainingSet :: x !in testSet
    {
      var names := ImageNames(dataset.keys);
      var data := new string[|names|](i requires 0 <= i < |names| => names[i]);
      assert data[..] == names;
      trainingSet, testSet := DivideDataAtRandom(data, percentage, draws);
      training, test := trainingSet, testSet;
      ImageNamesDistinct(dataset.keys);
      SplitIsPartition(names, draws, percentage);
    }

    /**
     * `create_empty_txt`: creates, or empties, `data/obj/<stem>.txt` for the
     * stem of every `.jpg` entry of the listing that has no entry in the
     * dictionary.
     */
    method CreateEmptyTxt(listing: seq<string>)
      modifies fs
      ensures fs.files == WithEmptyLabels(old(fs.files), JpgStems(listing), dataset.labels)
      ensures unchanged(this)
    {
      var stems := JpgStems(listing);
      var i := 0;
      while i < |stems|
        invariant 0 <= i <= |stems|
        invariant WithEmptyLabels(fs.files, stems[i..], dataset.labels)
               == WithEmptyLabels(old(fs.files), stems, dataset.labels)
      {
        assert stems[i..][1..] == stems[i + 1..];
        if stems[i] !in dataset.labels {
          fs.files := fs.files[LabelPath(stems[i]) := ""];
        }
        i := i + 1;
      }
    }

    /**
     * `create_set_txt`: writes `data/<name>`, one line `data/obj/<entry>` per
     * entry in order, over whatever the file held.
     */
    method CreateSetTxt(entries: seq<string>, name: string)
      modifies fs
      ensures fs.files == old(fs.files)[ManifestPath(name) := Manifest(entries)]
    {
      var path := ManifestPath(name);
      fs.files := fs.files[path := ""];
      var i := 0;
      while i < |entries|
        invariant 0 <= i <= |entries|
        invariant fs.files == old(fs.files)[path := Manifest(entries[..i])]
      {
        assert entries[..i + 1] == entries[..i] + [entries[i]];
        ManifestSnoc(entries[..i], entries[i]);
        fs.files := fs.files[path := fs.files[path] + ManifestLine(entries[i])];
        i := i + 1;
      }
      assert entries[..i] == entries;
    }

    /** `drop_objects`: not implemented in the tool; it changes nothing. */
    method DropObjects(obj: int, thrash: bool)
      ensures unchanged(this) && unchanged(fs)
    {
    }
  }
}
