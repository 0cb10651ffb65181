/**
 * What the operations of `YoloData` compute, as functions of their inputs,
 * and the properties those functions have.
 */
module DatasetModel {
  import opened Wrappers
  import opened PyText
  import opened PyRandom
  import opened Labels

  /** The class catalogue `YoloData.classes`. */
  const Classes: map<int, string> :=
    map[0 := "vetalas", 1 := "draugar", 2 := "aswang", 3 := "jiangshi", 4 := "beam", 5 := "marker"]

  /** `YoloData.data_folder`. */
  const DataFolder: string := "data/obj"

  /** The path of the entry `name` of the data folder. */
  function DataPath(name: string): string
  {
    DataFolder + "/" + name
  }

  lemma DataPathInjective(f: string, g: string)
    requires DataPath(f) == DataPath(g)
    ensures f == g
  {
    assert DataPath(f)[|DataFolder| + 1..] == f;
    assert DataPath(g)[|DataFolder| + 1..] == g;
  }

  /** The label file of the image `stem`. */
  function LabelPath(stem: string): string
  {
    DataPath(stem + ".txt")
  }

  /** `'data/' + name`, where a manifest is written. */
  function ManifestPath(name: string): string
  {
    "data/" + name
  }

  /** `name[:-4]`: the name without its last four characters, or "" when it is shorter. */
  function Stem(name: string): (s: string)
    ensures |name| >= 4 ==> s + name[|name| - 4..] == name
  {
    if |name| >= 4 then name[..|name| - 4] else ""
  }

  lemma StemOfSuffixed(s: string, ext: string)
    requires |ext| == 4
    ensures Stem(s + ext) == s
  {
    assert (s + ext)[..|s|] == s;
  }

  predicate Distinct<T(==)>(s: seq<T>)
  {
    forall i, j | 0 <= i < j < |s| :: s[i] != s[j]
  }

  /** A sequence without repetitions holds each of its elements exactly once. */
  lemma {:induction false} DistinctOnce<T>(s: seq<T>)
    requires Distinct(s)
    ensures forall x | x in multiset(s) :: multiset(s)[x] == 1
    decreases |s|
  {
    if s != [] {
      var init := s[..|s| - 1];
      DistinctOnce(init);
      assert s == init + [s[|s| - 1]];
      assert s[|s| - 1] !in init;
    }
  }

  // ---------------------------------------------------------------------------
  // The `dataset` dictionary

  /** The `dataset` dictionary: its keys in insertion order, and the records stored under each. */
  datatype Dataset = Dataset(keys: seq<string>, labels: map<string, seq<Record>>) {
    predicate Valid()
    {
      Distinct(keys) && (forall k | k in keys :: k in labels) && (forall k | k in labels :: k in keys)
    }
  }

  /** `dataset[key] = value`: a new key goes to the end, a key already present keeps its place. */
  function Put(d: Dataset, key: string, value: seq<Record>): (r: Dataset)
    requires d.Valid()
    ensures r.Valid()
    ensures r.labels == d.labels[key := value]
    ensures d.keys <= r.keys
  {
    if key in d.labels then Dataset(d.keys, d.labels[key := value])
    else Dataset(d.keys + [key], d.labels[key := value])
  }

  // ---------------------------------------------------------------------------
  // load_data

  /** `[f for f in listing if f.endswith('.txt')]`. */
  function TxtFiles(listing: seq<string>): (files: seq<string>)
    ensures forall f :: f in files <==> f in listing && EndsWith(f, ".txt")
    decreases |listing|
  {
    if listing == [] then []
    else
      assert listing == [listing[0]] + listing[1..];
      (if EndsWith(listing[0], ".txt") then [listing[0]] else []) + TxtFiles(listing[1..])
  }

  /** The dictionary after loading, and the exception that stopped the loading, if any. */
  datatype Loading = Loading(dataset: Dataset, failure: Option<LoadError>)

  /**
   * The loop of `load_data` over `files`, from the dictionary `d`: each file's
   * records are stored under its stem; the first file that is missing or does
   * not parse stops the loop, and what the earlier files stored stays.
   */
  function Load(d: Dataset, files: seq<string>, fsFiles: map<string, string>, parse: Parser): (r: Loading)
    requires d.Valid()
    ensures r.dataset.Valid()
    ensures d.keys <= r.dataset.keys
    decreases |files|
  {
    if files == [] then Loading(d, None)
    else
      var path := DataPath(files[0]);
      if path !in fsFiles then Loading(d, Some(FileNotFound(path)))
      else
        match ParseRecords(ReadLines(fsFiles[path]), parse)
        case Failure(e) => Loading(d, Some(e))
        case Success(rs) => Load(Put(d, Stem(files[0]), rs), files[1..], fsFiles, parse)
  }

  /** Loading succeeds exactly when every file is there and every line of it parses. */
  lemma {:induction false} LoadSucceedsIff(d: Dataset, files: seq<string>, fsFiles: map<string, string>, parse: Parser)
    requires d.Valid()
    ensures Load(d, files, fsFiles, parse).failure.None? <==>
      forall f | f in files ::
        DataPath(f) in fsFiles && ParseRecords(ReadLines(fsFiles[DataPath(f)]), parse).Success?
    decreases |files|
  {
    if files != [] {
      assert files == [files[0]] + files[1..];
      var path := DataPath(files[0]);
      if path in fsFiles {
        var p := ParseRecords(ReadLines(fsFiles[path]), parse);
        if p.Success? {
          LoadSucceedsIff(Put(d, Stem(files[0]), p.value), files[1..], fsFiles, parse);
        }
      }
    }
  }

  /** One step of the loop of `load_data`, at the file `files[i]`. */
  lemma LoadStep(d: Dataset, files: seq<string>, i: nat, fsFiles: map<string, string>, parse: Parser)
    requires d.Valid() && i < |files|
    ensures var path := DataPath(files[i]);
      path !in fsFiles ==> Load(d, files[i..], fsFiles, parse) == Loading(d, Some(FileNotFound(path)))
    ensures var path := DataPath(files[i]);
      path in fsFiles ==>
        var p := ParseRecords(ReadLines(fsFiles[path]), parse);
        && (p.Failure? ==> Load(d, files[i..], fsFiles, parse) == Loading(d, Some(p.error)))
        && (p.Success? ==>
              Load(d, files[i..], fsFiles, parse) == Load(Put(d, Stem(files[i]), p.value), files[i + 1..], fsFiles, parse))
  {
    assert files[i..][0] == files[i] && files[i..][1..] == files[i + 1..];
  }

  /** Loading never touches a key that is not the stem of a file it reads, whether it fails or not. */
  lemma {:induction false} LoadLeavesOtherKeys(d: Dataset, files: seq<string>, fsFiles: map<string, string>,
                                               parse: Parser, k: string)
    requires d.Valid()
    requires forall f | f in files :: Stem(f) != k
    ensures var r := Load(d, files, fsFiles, parse).dataset;
      (k in r.labels <==> k in d.labels) && (k in d.labels ==> r.labels[k] == d.labels[k])
    decreases |files|
  {
    if files != [] {
      assert files == [files[0]] + files[1..];
      var path := DataPath(files[0]);
      if path in fsFiles {
        var p := ParseRecords(ReadLines(fsFiles[path]), parse);
        if p.Success? {
          LoadLeavesOtherKeys(Put(d, Stem(files[0]), p.value), files[1..], fsFiles, parse, k);
        }
      }
    }
  }

  /** Two names with the same four-character ending and the same stem are the same name. */
  lemma SameStemSameName(f: string, g: string, ext: string)
    requires |ext| == 4 && EndsWith(f, ext) && EndsWith(g, ext) && Stem(f) == Stem(g)
    ensures f == g
  {
    assert f == Stem(f) + ext;
    assert g == Stem(g) + ext;
  }

  /**
   * A load that succeeds stores, under the stem of every file, that file's
   * records, one per line in file order.
   */
  lemma {:induction false} LoadStoresEachFile(d: Dataset, files: seq<string>, fsFiles: map<string, string>,
                                              parse: Parser)
    requires d.Valid()
    requires forall f | f in files :: EndsWith(f, ".txt")
    requires Load(d, files, fsFiles, parse).failure.None?
    ensures forall f | f in files ::
      DataPath(f) in fsFiles && ParseRecords(ReadLines(fsFiles[DataPath(f)]), parse).Success?
    ensures var r := Load(d, files, fsFiles, parse).dataset;
      forall f | f in files ::
        && Stem(f) in r.labels
        && r.labels[Stem(f)] == ParseRecords(ReadLines(fsFiles[DataPath(f)]), parse).value
    decreases |files|
  {
    if files != [] {
      assert files == [files[0]] + files[1..];
      var f0 := files[0];
      var rs := ParseRecords(ReadLines(fsFiles[DataPath(f0)]), parse).value;
      LoadSucceedsIff(d, files, fsFiles, parse);
      var d' := Put(d, Stem(f0), rs);
      assert Load(d, files, fsFiles, parse) == Load(d', files[1..], fsFiles, parse);
      LoadStoresEachFile(d', files[1..], fsFiles, parse);
      if g :| g in files[1..] && Stem(g) == Stem(f0) {
        SameStemSameName(g, f0, ".txt");
      } else {
        LoadLeavesOtherKeys(d', files[1..], fsFiles, parse, Stem(f0));
      }
    }
  }

  /**
   * After a load that succeeds, the keys of the dictionary are the keys it
   * held before together with the stems of the files read, and no others.
   */
  lemma LoadKeys(d: Dataset, files: seq<string>, fsFiles: map<string, string>, parse: Parser)
    requires d.Valid()
    requires forall f | f in files :: EndsWith(f, ".txt")
    requires Load(d, files, fsFiles, parse).failure.None?
    ensures var r := Load(d, files, fsFiles, parse).dataset;
      forall k :: k in r.labels <==> k in d.labels || exists f | f in files :: Stem(f) == k
  {
    LoadStoresEachFile(d, files, fsFiles, parse);
    forall k | !exists f | f in files :: Stem(f) == k
      ensures k in Load(d, files, fsFiles, parse).dataset.labels <==> k in d.labels
    {
      LoadLeavesOtherKeys(d, files, fsFiles, parse, k);
    }
  }

  // ---------------------------------------------------------------------------
  // objects_count

  /** `KeyError` of `classes_count[obj[0]]`: a class id outside the catalogue. */
  datatype CountError = UnknownClass(classId: int)

  /** The records under `keys`, key after key, each key's records in order. */
  function RecordsOf(keys: seq<string>, labels: map<string, seq<Record>>): (rs: seq<Record>)
    requires forall k | k in keys :: k in labels
    decreases |keys|
  {
    if keys == [] then [] else RecordsOf(keys[..|keys| - 1], labels) + labels[keys[|keys| - 1]]
  }

  /** Every record of the dataset, in the order `objects_count` visits them. */
  function Records(d: Dataset): seq<Record>
    requires d.Valid()
  {
    RecordsOf(d.keys, d.labels)
  }

  /** Taking a key more extends the records seen so far. */
  lemma {:induction false} RecordsOfPrefix(keys: seq<string>, labels: map<string, seq<Record>>, i: nat)
    requires forall k | k in keys :: k in labels
    requires i < |keys|
    ensures RecordsOf(keys[..i], labels) + labels[keys[i]] <= RecordsOf(keys, labels)
    decreases |keys|
  {
    var init := keys[..|keys| - 1];
    if i == |keys| - 1 {
      assert keys[..i] == init;
    } else {
      assert init[..i] == keys[..i];
      RecordsOfPrefix(init, labels, i);
    }
  }

  /** Every record has a class of the catalogue. */
  predicate AllInCatalogue(rs: seq<Record>)
  {
    forall i | 0 <= i < |rs| :: rs[i].classId in Classes
  }

  /** `counts` holds, for each catalogue class, its tally over `rs`. */
  predicate Tallies(counts: map<int, nat>, rs: seq<Record>)
  {
    counts.Keys == Classes.Keys && forall c | c in Classes :: counts[c] == Count(rs, c)
  }

  /** Tallies over the records of the next key extend the tallies over the keys before it. */
  lemma TalliesAppend(counts: map<int, nat>, next: map<int, nat>, seen: seq<Record>, objs: seq<Record>)
    requires Tallies(counts, seen)
    requires next.Keys == Classes.Keys && forall c | c in Classes :: next[c] == counts[c] + Count(objs, c)
    ensures Tallies(next, seen + objs)
  {
    CountAppend(seen, objs);
  }

  /**
   * The record at `m` of the key at `i` sits at `|RecordsOf(keys[..i])| + m`
   * among all records; where every record before it, in earlier keys and in
   * its own, is in the catalogue, so is every record before that position.
   */
  lemma RecordPosition(keys: seq<string>, labels: map<string, seq<Record>>, i: nat, m: nat)
    requires forall k | k in keys :: k in labels
    requires i < |keys| && m < |labels[keys[i]]|
    requires AllInCatalogue(RecordsOf(keys[..i], labels)) && AllInCatalogue(labels[keys[i]][..m])
    ensures var rs := RecordsOf(keys, labels); var n := |RecordsOf(keys[..i], labels)| + m;
      n < |rs| && rs[n] == labels[keys[i]][m] && AllInCatalogue(rs[..n])
  {
    var seen := RecordsOf(keys[..i], labels);
    var objs := labels[keys[i]];
    RecordsOfPrefix(keys, labels, i);
    CountAppend(seen, objs[..m]);
    assert (seen + objs)[..|seen| + m] == seen + objs[..m];
    PrefixAgrees(seen + objs, RecordsOf(keys, labels), |seen| + m);
  }

  /** Where `rs` extends the first `m + 1` records of `s`, it agrees with `s` up to and including `m`. */
  lemma PrefixAgrees(s: seq<Record>, rs: seq<Record>, m: nat)
    requires m < |s| && s[..m + 1] <= rs
    ensures m < |rs| && rs[m] == s[m] && rs[..m] == s[..m]
  {
    assert rs[..m + 1] == s[..m + 1];
    assert rs[..m] == rs[..m + 1][..m];
    assert s[..m] == s[..m + 1][..m];
  }

  /** How many of the records have class id `c`. */
  function Count(rs: seq<Record>, c: int): (n: nat)
    ensures n <= |rs|
    decreases |rs|
  {
    if rs == [] then 0
    else Count(rs[..|rs| - 1], c) + (if rs[|rs| - 1].classId == c then 1 else 0)
  }

  /** A class is tallied zero times exactly when no record has it. */
  lemma {:induction false} CountZero(rs: seq<Record>, c: int)
    ensures Count(rs, c) == 0 <==> forall i | 0 <= i < |rs| :: rs[i].classId != c
    decreases |rs|
  {
    if rs != [] {
      var init := rs[..|rs| - 1];
      CountZero(init, c);
      assert forall i | 0 <= i < |init| :: rs[i] == init[i];
    }
  }

  /** One more record adds one to the tally of its class and nothing to the others. */
  lemma CountSnoc(xs: seq<Record>, r: Record)
    ensures forall c :: Count(xs + [r], c) == Count(xs, c) + (if r.classId == c then 1 else 0)
  {
    assert (xs + [r])[..|xs|] == xs;
  }

  /** Tallies add up over consecutive runs of records. */
  lemma {:induction false} CountAppend(xs: seq<Record>, ys: seq<Record>)
    ensures forall c :: Count(xs + ys, c) == Count(xs, c) + Count(ys, c)
    ensures AllInCatalogue(xs + ys) <==> AllInCatalogue(xs) && AllInCatalogue(ys)
    decreases |ys|
  {
    if ys != [] {
      var init := ys[..|ys| - 1];
      CountAppend(xs, init);
      assert (xs + ys)[..|xs + ys| - 1] == xs + init;
      forall c
        ensures Count(xs + ys, c) == Count(xs, c) + Count(ys, c)
      {
        assert Count(xs + ys, c) == Count(xs + init, c) + (if ys[|ys| - 1].classId == c then 1 else 0);
      }
    } else {
      assert xs + ys == xs;
    }
    assert forall i | 0 <= i < |xs| :: (xs + ys)[i] == xs[i];
    assert forall i | 0 <= i < |ys| :: (xs + ys)[|xs| + i] == ys[i];
  }

  /** `{classes[c]: classes_count[c] for c in classes_count}`: the tallies by class name. */
  function ByName(counts: map<int, nat>): (m: map<string, nat>)
    requires counts.Keys == Classes.Keys
    ensures m.Keys == Classes.Values
    ensures forall c | c in Classes :: m[Classes[c]] == counts[c]
  {
    map c | c in counts :: Classes[c] := counts[c]
  }

  /** When every class id is in the catalogue, the six tallies add up to the number of records. */
  lemma {:induction false} CountsConserve(rs: seq<Record>)
    requires forall i | 0 <= i < |rs| :: rs[i].classId in Classes
    ensures Count(rs, 0) + Count(rs, 1) + Count(rs, 2) + Count(rs, 3) + Count(rs, 4) + Count(rs, 5) == |rs|
    decreases |rs|
  {
    if rs != [] {
      CountsConserve(rs[..|rs| - 1]);
    }
  }

  // ---------------------------------------------------------------------------
  // divide_data_at_random and define_training_set

  /** `int(percentage * len(data))`, as a slice bound in a list of length `n`. */
  function Cut(percentage: real, n: nat): (k: nat)
    ensures k <= n
  {
    SliceIndex(Trunc(percentage * n as real), n)
  }

  lemma NonnegativeProduct(a: real, b: real)
    requires 0.0 <= a && 0.0 <= b
    ensures 0.0 <= a * b
  {
  }

  /** For a fraction in [0, 1] the first split takes the floor of that fraction of the elements. */
  lemma CutInUnitRange(percentage: real, n: nat)
    requires 0.0 <= percentage <= 1.0
    ensures Cut(percentage, n) == (percentage * n as real).Floor
    ensures percentage == 0.0 ==> Cut(percentage, n) == 0
    ensures percentage == 1.0 ==> Cut(percentage, n) == n
  {
    NonnegativeProduct(percentage, n as real);
    NonnegativeProduct(1.0 - percentage, n as real);
  }

  /**
   * For a fraction in [-1, 0) the truncated product is a slice bound in
   * `-n..0`: when it truncates to 0 the first split is empty, otherwise the
   * bound counts from the end of the list, as Python slicing does.
   */
  lemma CutOfNegativeFraction(percentage: real, n: nat)
    requires -1.0 <= percentage < 0.0
    ensures 0 <= n + Trunc(percentage * n as real) && Trunc(percentage * n as real) <= 0
    ensures Trunc(percentage * n as real) == 0 ==> Cut(percentage, n) == 0
    ensures Trunc(percentage * n as real) < 0 ==> Cut(percentage, n) == n + Trunc(percentage * n as real)
  {
    NonnegativeProduct(-percentage, n as real);
    NonnegativeProduct(1.0 + percentage, n as real);
    assert (1.0 + percentage) * n as real == n as real + percentage * n as real;
  }

  /**
   * The split of a shuffled list without repetitions: the two parts together
   * hold each element of the list exactly once, and no element is in both.
   */
  lemma SplitIsPartition<T>(s: seq<T>, draws: seq<nat>, percentage: real)
    requires ValidDraws(draws, |s|)
    requires Distinct(s)
    ensures var t := Shuffle(s, draws); var k := Cut(percentage, |s|);
      && multiset(t[..k]) + multiset(t[k..]) == multiset(s)
      && (forall x | x in multiset(s) :: (multiset(t[..k]) + multiset(t[k..]))[x] == 1)
      && (forall x | x in t[..k] :: x !in t[k..])
  {
    var t := Shuffle(s, draws);
    var k := Cut(percentage, |s|);
    assert t == t[..k] + t[k..];
    DistinctOnce(s);
    forall x | x in t[..k]
      ensures x !in t[k..]
    {
      assert multiset(s)[x] == multiset(t[..k])[x] + multiset(t[k..])[x];
    }
  }

  /** `[i + '.jpg' for i in dataset]`. */
  function ImageNames(keys: seq<string>): (names: seq<string>)
    ensures |names| == |keys|
    ensures forall i | 0 <= i < |keys| :: Stem(names[i]) == keys[i] && EndsWith(names[i], ".jpg")
  {
    seq(|keys|, i requires 0 <= i < |keys| => keys[i] + ".jpg")
  }

  /** Distinct keys give distinct image names. */
  lemma ImageNamesDistinct(keys: seq<string>)
    requires Distinct(keys)
    ensures Distinct(ImageNames(keys))
  {
    var names := ImageNames(keys);
    forall i, j | 0 <= i < j < |names|
      ensures names[i] != names[j]
    {
      StemOfSuffixed(keys[i], ".jpg");
      StemOfSuffixed(keys[j], ".jpg");
    }
  }

  // ---------------------------------------------------------------------------
  // create_empty_txt

  /** `[f[:-4] for f in listing if f.endswith('.jpg')]`. */
  function JpgStems(listing: seq<string>): (stems: seq<string>)
    ensures forall f | f in listing && EndsWith(f, ".jpg") :: Stem(f) in stems
    ensures forall s | s in stems :: s + ".jpg" in listing
    decreases |listing|
  {
    if listing == [] then []
    else
      assert listing == [listing[0]] + listing[1..];
      (if EndsWith(listing[0], ".jpg") then [Stem(listing[0])] else []) + JpgStems(listing[1..])
  }

  /** The loop of `create_empty_txt`: an empty label file for each stem that has no entry in the dictionary. */
  function WithEmptyLabels(files: map<string, string>, stems: seq<string>,
                           labels: map<string, seq<Record>>): map<string, string>
    decreases |stems|
  {
    if stems == [] then files
    else
      var next := if stems[0] in labels then files else files[LabelPath(stems[0]) := ""];
      WithEmptyLabels(next, stems[1..], labels)
  }

  /** `p` is the label file of one of the stems that has no entry. */
  ghost predicate Missing(p: string, stems: seq<string>, labels: map<string, seq<Record>>)
  {
    exists s | s in stems :: s !in labels && p == LabelPath(s)
  }

  /** Exactly the label files of the stems without an entry become empty; every other file is left as it was. */
  lemma {:induction false} EmptyLabelsAt(files: map<string, string>, stems: seq<string>,
                                         labels: map<string, seq<Record>>, p: string)
    ensures var r := WithEmptyLabels(files, stems, labels);
      && (p in r <==> p in files || Missing(p, stems, labels))
      && (p in r ==> r[p] == if Missing(p, stems, labels) then "" else files[p])
    decreases |stems|
  {
    if stems != [] {
      var next := if stems[0] in labels then files else files[LabelPath(stems[0]) := ""];
      EmptyLabelsAt(next, stems[1..], labels, p);
      assert stems == [stems[0]] + stems[1..];
      assert Missing(p, stems, labels) <==>
        (stems[0] !in labels && p == LabelPath(stems[0])) || Missing(p, stems[1..], labels);
    }
  }

  /** Creating the empty label files a second time changes nothing. */
  lemma EmptyLabelsIdempotent(files: map<string, string>, stems: seq<string>, labels: map<string, seq<Record>>)
    ensures var once := WithEmptyLabels(files, stems, labels);
      WithEmptyLabels(once, stems, labels) == once
  {
    var once := WithEmptyLabels(files, stems, labels);
    var twice := WithEmptyLabels(once, stems, labels);
    forall p
      ensures (p in twice <==> p in once) && (p in twice ==> twice[p] == once[p])
    {
      EmptyLabelsAt(files, stems, labels, p);
      EmptyLabelsAt(once, stems, labels, p);
    }
    assert twice.Keys == once.Keys;
  }

  /**
   * When every label file of the listing has its stem in the dictionary, no
   * label file of the listing is overwritten.
   */
  lemma EmptyLabelsKeepListedLabels(files: map<string, string>, listing: seq<string>,
                                    labels: map<string, seq<Record>>)
    requires forall f | f in TxtFiles(listing) :: Stem(f) in labels
    ensures var r := WithEmptyLabels(files, JpgStems(listing), labels);
      forall f | f in listing && EndsWith(f, ".txt") && DataPath(f) in files ::
        DataPath(f) in r && r[DataPath(f)] == files[DataPath(f)]
  {
    var stems := JpgStems(listing);
    forall f | f in listing && EndsWith(f, ".txt") && DataPath(f) in files
      ensures var r := WithEmptyLabels(files, stems, labels); DataPath(f) in r && r[DataPath(f)] == files[DataPath(f)]
    {
      EmptyLabelsAt(files, stems, labels, DataPath(f));
      if Missing(DataPath(f), stems, labels) {
        var s :| s in stems && s !in labels && DataPath(f) == LabelPath(s);
        DataPathInjective(f, s + ".txt");
        StemOfSuffixed(s, ".txt");
        assert false;
      }
    }
  }

  /** After a load of the listing that succeeds, creating the empty label files overwrites none of the listed ones. */
  lemma LoadThenEmptyLabels(d: Dataset, listing: seq<string>, files: map<string, string>, parse: Parser)
    requires d.Valid()
    requires Load(d, TxtFiles(listing), files, parse).failure.None?
    ensures var r := WithEmptyLabels(files, JpgStems(listing), Load(d, TxtFiles(listing), files, parse).dataset.labels);
      forall f | f in listing && EndsWith(f, ".txt") ::
        DataPath(f) in files && DataPath(f) in r && r[DataPath(f)] == files[DataPath(f)]
  {
    LoadStoresEachFile(d, TxtFiles(listing), files, parse);
    EmptyLabelsKeepListedLabels(files, listing, Load(d, TxtFiles(listing), files, parse).dataset.labels);
  }

  // ---------------------------------------------------------------------------
  // create_set_txt

  /** `data_folder + '/' + entry + '\n'`. */
  function ManifestLine(entry: string): string
  {
    DataFolder + "/" + entry + "\n"
  }

  function ManifestLines(entries: seq<string>): (lines: seq<string>)
    ensures |lines| == |entries|
  {
    seq(|entries|, i requires 0 <= i < |entries| => ManifestLine(entries[i]))
  }

  /** The text of a manifest listing `entries`, in order. */
  function Manifest(entries: seq<string>): string
  {
    Concat(ManifestLines(entries))
  }

  lemma ManifestSnoc(entries: seq<string>, e: string)
    ensures Manifest(entries + [e]) == Manifest(entries) + ManifestLine(e)
  {
    assert ManifestLines(entries + [e]) == ManifestLines(entries) + [ManifestLine(e)];
    ConcatSnoc(ManifestLines(entries), ManifestLine(e));
  }

  /** A manifest line with the folder prefix and the newline taken off. */
  function EntryOf(line: string): string
  {
    if |line| >= |DataFolder| + 2 then line[|DataFolder| + 1..|line| - 1] else ""
  }

  /** The entries a manifest text lists, read back line by line. */
  function ReadManifest(content: string): seq<string>
  {
    var lines := ReadLines(content);
    seq(|lines|, i requires 0 <= i < |lines| => EntryOf(lines[i]))
  }

  /**
   * Reading a manifest back gives one line per entry, in order, and the
   * entries themselves, as long as no entry holds a newline.
   */
  lemma ManifestRoundTrip(entries: seq<string>)
    requires forall i | 0 <= i < |entries| :: Free(entries[i], '\n')
    ensures ReadLines(Manifest(entries)) == ManifestLines(entries)
    ensures ReadManifest(Manifest(entries)) == entries
  {
    var lines := ManifestLines(entries);
    forall i | 0 <= i < |lines|
      ensures Terminated(lines[i]) && EntryOf(lines[i]) == entries[i]
    {
      var line := lines[i];
      assert line == DataFolder + "/" + entries[i] + "\n";
      assert line[..|line| - 1] == DataFolder + "/" + entries[i];
      assert line[|DataFolder| + 1..|line| - 1] == entries[i];
    }
    ReadLinesConcat(lines);
  }
}
