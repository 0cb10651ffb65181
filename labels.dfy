/**
 * Label files: each line of `data/obj/<stem>.txt` is read as `<class id> <x> <y> <w> <h>`,
 * the tokens separated by single spaces.
 */
module Labels {
  import opened Wrappers
  import opened PyText

  /** A Python float as `float()` returns it: a finite value, or one of inf, -inf and nan. */
  datatype Float = Finite(value: real) | NonFinite

  /** One parsed line: the first token as `int(float(token))`, then every other token as a float. */
  datatype Record = Record(classId: int, fields: seq<Float>)

  /** The exceptions that `load_data` lets through. */
  datatype LoadError =
    | FileNotFound(path: string)   // `open` of a listed name that is not a file
    | NotANumber(token: string)    // `float(token)` raised ValueError
    | NotAnInteger(token: string)  // `int()` of an infinite or nan first field

  /** The number parser `float()`, supplied by the caller: None where `float()` raises. */
  type Parser = string -> Option<Float>

  /** `[float(l) for l in tokens]`: every token as a number, or the error of a token that is not one. */
  function ParseTokens(tokens: seq<string>, parse: Parser): (r: Result<seq<Float>, LoadError>)
    ensures r.Success? <==> forall i | 0 <= i < |tokens| :: parse(tokens[i]).Some?
    ensures r.Success? ==>
      |r.value| == |tokens| && forall i | 0 <= i < |tokens| :: r.value[i] == parse(tokens[i]).value
    ensures r.Failure? ==> r.error.NotANumber? && r.error.token in tokens && parse(r.error.token).None?
    decreases |tokens|
  {
    if tokens == [] then Success([])
    else
      assert tokens == [tokens[0]] + tokens[1..];
      match parse(tokens[0])
      case None => Failure(NotANumber(tokens[0]))
      case Some(x) =>
        match ParseTokens(tokens[1..], parse)
        case Failure(e) => Failure(e)
        case Success(xs) => Success([x] + xs)
  }

  /**
   * One line of a label file: `d = [float(l) for l in line.split(' ')]`
   * followed by `d[0] = int(d[0])`. The line keeps its newline, so the last
   * token carries it; the number of tokens is not checked.
   */
  function ParseLine(line: string, parse: Parser): (r: Result<Record, LoadError>)
    ensures var tokens := Split(line, ' ');
      r.Success? <==>
        (forall i | 0 <= i < |tokens| :: parse(tokens[i]).Some?) && parse(tokens[0]).value.Finite?
    ensures var tokens := Split(line, ' ');
      r.Success? ==>
        && r.value.classId == Trunc(parse(tokens[0]).value.value)
        && |r.value.fields| == |tokens| - 1
        && forall i | 1 <= i < |tokens| :: r.value.fields[i - 1] == parse(tokens[i]).value
  {
    var tokens := Split(line, ' ');
    match ParseTokens(tokens, parse)
    case Failure(e) => Failure(e)
    case Success(xs) =>
      match xs[0]
      case NonFinite => Failure(NotAnInteger(tokens[0]))
      case Finite(v) => Success(Record(Trunc(v), xs[1..]))
  }

  /** A line holding only its newline is one token, "\n", so it fails wherever `float()` rejects that token. */
  lemma BlankLineFails(parse: Parser)
    requires parse("\n").None?
    ensures ParseLine("\n", parse) == Failure(NotANumber("\n"))
  {
    SplitOfFree("\n", ' ');
  }

  /**
   * The records of a label file's lines, in file order: one per line, or the
   * error of the first line that does not parse.
   */
  function ParseRecords(lines: seq<string>, parse: Parser): (r: Result<seq<Record>, LoadError>)
    ensures r.Success? <==> forall i | 0 <= i < |lines| :: ParseLine(lines[i], parse).Success?
    ensures r.Success? ==>
      |r.value| == |lines| && forall i | 0 <= i < |lines| :: r.value[i] == ParseLine(lines[i], parse).value
    ensures r.Failure? ==> exists i | 0 <= i < |lines| :: ParseLine(lines[i], parse) == Failure(r.error)
    decreases |lines|
  {
    if lines == [] then Success([])
    else
      assert lines == [lines[0]] + lines[1..];
      match ParseLine(lines[0], parse)
      case Failure(e) => Failure(e)
      case Success(rec) => Prepend([rec], ParseRecords(lines[1..], parse))
  }

  /** A file that does not parse fails with the error of its first line that does not parse. */
  lemma {:induction false} ParseRecordsFirstFailure(lines: seq<string>, parse: Parser)
    requires ParseRecords(lines, parse).Failure?
    ensures exists i | 0 <= i < |lines| ::
      && ParseLine(lines[i], parse) == Failure(ParseRecords(lines, parse).error)
      && forall j | 0 <= j < i :: ParseLine(lines[j], parse).Success?
    decreases |lines|
  {
    var e := ParseRecords(lines, parse).error;
    if ParseLine(lines[0], parse).Success? {
      var rest := lines[1..];
      ParseRecordsFirstFailure(rest, parse);
      var i :| 0 <= i < |rest| && ParseLine(rest[i], parse) == Failure(e)
               && forall j | 0 <= j < i :: ParseLine(rest[j], parse).Success?;
      assert forall j | 1 <= j < i + 1 :: lines[j] == rest[j - 1];
      assert ParseLine(lines[i + 1], parse) == Failure(e);
    } else {
      assert ParseLine(lines[0], parse) == Failure(e);
    }
  }

  /** The records `done` followed by those of `rest`, or the error of `rest`. */
  function Prepend(done: seq<Record>, rest: Result<seq<Record>, LoadError>): Result<seq<Record>, LoadError>
  {
    match rest
    case Failure(e) => Failure(e)
    case Success(recs) => Success(done + recs)
  }

  /** One step of the loop over a file's lines: the line at `i` either stops the parse or adds its record. */
  lemma ParseRecordsStep(lines: seq<string>, i: nat, parse: Parser)
    requires i < |lines|
    ensures ParseLine(lines[i], parse).Failure? ==>
      ParseRecords(lines[i..], parse) == Failure(ParseLine(lines[i], parse).error)
    ensures ParseLine(lines[i], parse).Success? ==>
      ParseRecords(lines[i..], parse) == Prepend([ParseLine(lines[i], parse).value], ParseRecords(lines[i + 1..], parse))
  {
    assert lines[i..][0] == lines[i] && lines[i..][1..] == lines[i + 1..];
  }

  lemma PrependTwice(a: seq<Record>, b: seq<Record>, rest: Result<seq<Record>, LoadError>)
    ensures Prepend(a, Prepend(b, rest)) == Prepend(a + b, rest)
  {
    if rest.Success? {
      assert a + (b + rest.value) == (a + b) + rest.value;
    }
  }
}
