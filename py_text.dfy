/**
 * The Python string operations and number conversions that the dataset tool
 * relies on, written out: `str.split(sep)`, `file.readlines()`,
 * `str.endswith`, `int()` of a float and the clipping of slice bounds.
 * `Concat` is the text that consecutive `write` calls produce, and `Join`
 * states what `Split` undoes.
 */
module PyText {

  /** The text of `parts` written one after another. */
  function Concat(parts: seq<string>): string
    decreases |parts|
  {
    if parts == [] then "" else parts[0] + Concat(parts[1..])
  }

  lemma {:induction false} ConcatSnoc(parts: seq<string>, last: string)
    ensures Concat(parts + [last]) == Concat(parts) + last
    decreases |parts|
  {
    if parts == [] {
      assert parts + [last] == [last];
      assert [last][1..] == [];
    } else {
      assert (parts + [last])[1..] == parts[1..] + [last];
      ConcatSnoc(parts[1..], last);
    }
  }

  /** The parts with a one-character separator between them: what `Split` undoes. */
  function Join(parts: seq<string>, sep: char): string
    requires parts != []
    decreases |parts|
  {
    if |parts| == 1 then parts[0] else parts[0] + [sep] + Join(parts[1..], sep)
  }

  /** No character of `s` is `c`. */
  predicate Free(s: string, c: char)
  {
    forall k | 0 <= k < |s| :: s[k] != c
  }

  /**
   * `s.split(sep)`: the pieces between the occurrences of `sep`, empty pieces
   * included, so that joining them with `sep` gives `s` back.
   */
  function Split(s: string, sep: char): (pieces: seq<string>)
    ensures pieces != []
    ensures Join(pieces, sep) == s
    ensures forall i | 0 <= i < |pieces| :: Free(pieces[i], sep)
    decreases |s|
  {
    if s == [] then [[]]
    else
      var rest := Split(s[1..], sep);
      assert s == [s[0]] + s[1..];
      if s[0] == sep then
        assert ([[]] + rest)[1..] == rest;
        [[]] + rest
      else
        assert ([[s[0]] + rest[0]] + rest[1..])[1..] == rest[1..];
        [[s[0]] + rest[0]] + rest[1..]
  }

  lemma {:induction false} SplitOfFree(x: string, sep: char)
    requires Free(x, sep)
    ensures Split(x, sep) == [x]
    decreases |x|
  {
    if x != [] {
      SplitOfFree(x[1..], sep);
      assert x == [x[0]] + x[1..];
    }
  }

  lemma {:induction false} SplitAtSeparator(x: string, sep: char, y: string)
    requires Free(x, sep)
    ensures Split(x + [sep] + y, sep) == [x] + Split(y, sep)
    decreases |x|
  {
    var s := x + [sep] + y;
    if x == [] {
      assert s[1..] == y;
    } else {
      assert s[1..] == x[1..] + [sep] + y;
      SplitAtSeparator(x[1..], sep, y);
      assert x == [x[0]] + x[1..];
    }
  }

  /** Splitting undoes joining pieces that hold no separator. */
  lemma {:induction false} SplitJoin(pieces: seq<string>, sep: char)
    requires pieces != []
    requires forall i | 0 <= i < |pieces| :: Free(pieces[i], sep)
    ensures Split(Join(pieces, sep), sep) == pieces
    decreases |pieces|
  {
    if |pieces| == 1 {
      SplitOfFree(pieces[0], sep);
    } else {
      SplitJoin(pieces[1..], sep);
      SplitAtSeparator(pieces[0], sep, Join(pieces[1..], sep));
      assert pieces == [pieces[0]] + pieces[1..];
    }
  }

  /** A line as `readlines` returns it: not empty, and no newline before its last character. */
  predicate LineShaped(line: string)
  {
    |line| > 0 && Free(line[..|line| - 1], '\n')
  }

  /** A complete line: shaped as a line, and ending with its newline. */
  predicate Terminated(line: string)
  {
    LineShaped(line) && line[|line| - 1] == '\n'
  }

  /**
   * `f.readlines()` on a text whose line ends are '\n': every line keeps its
   * newline, and a last line without one is returned as it is.
   */
  function ReadLines(s: string): (lines: seq<string>)
    ensures Concat(lines) == s
    ensures forall i | 0 <= i < |lines| :: LineShaped(lines[i])
    ensures forall i | 0 <= i < |lines| - 1 :: Terminated(lines[i])
    decreases |s|
  {
    if s == [] then []
    else
      var rest := ReadLines(s[1..]);
      assert s == [s[0]] + s[1..];
      if s[0] == '\n' || rest == [] then
        var lines := [[s[0]]] + rest;
        assert lines[1..] == rest;
        assert forall i | 1 <= i < |lines| :: lines[i] == rest[i - 1];
        lines
      else
        var first := [s[0]] + rest[0];
        var lines := [first] + rest[1..];
        assert first[..|first| - 1] == [s[0]] + rest[0][..|rest[0]| - 1];
        assert LineShaped(first) && (|rest| > 1 ==> Terminated(first));
        assert lines[1..] == rest[1..];
        assert rest == [rest[0]] + rest[1..];
        assert forall i | 1 <= i < |lines| :: lines[i] == rest[i];
        lines
  }

  lemma {:induction false} ReadLinesPrepend(x: string, y: string)
    requires Terminated(x)
    ensures ReadLines(x + y) == [x] + ReadLines(y)
    decreases |x|
  {
    var s := x + y;
    if |x| == 1 {
      assert s[1..] == y;
      assert [s[0]] == x;
    } else {
      assert x[0] == x[..|x| - 1][0];
      var x' := x[1..];
      assert x'[..|x'| - 1] == x[..|x| - 1][1..];
      assert s[1..] == x' + y;
      ReadLinesPrepend(x', y);
      assert x == [x[0]] + x';
    }
  }

  /** Reading back the concatenation of complete lines gives those lines. */
  lemma {:induction false} ReadLinesConcat(lines: seq<string>)
    requires forall i | 0 <= i < |lines| :: Terminated(lines[i])
    ensures ReadLines(Concat(lines)) == lines
    decreases |lines|
  {
    if lines != [] {
      ReadLinesConcat(lines[1..]);
      ReadLinesPrepend(lines[0], Concat(lines[1..]));
      assert lines == [lines[0]] + lines[1..];
    }
  }

  /** `s.endswith(suffix)`. */
  predicate EndsWith(s: string, suffix: string)
  {
    |suffix| <= |s| && s[|s| - |suffix|..] == suffix
  }

  /** `int(x)` of a finite float: truncation toward zero. */
  function Trunc(x: real): (t: int)
    ensures 0.0 <= x ==> 0 <= t && t as real <= x < t as real + 1.0
    ensures x < 0.0 ==> t <= 0 && t as real - 1.0 < x <= t as real
  {
    if x >= 0.0 then x.Floor else -((-x).Floor)
  }

  /**
   * Where the bound `k` of a slice `s[:k]` or `s[k:]` falls in a list of
   * length `n`: a negative bound counts from the end, and the result is
   * clipped to `0..n`.
   */
  function SliceIndex(k: int, n: nat): (i: nat)
    ensures i <= n
    ensures 0 <= k <= n ==> i == k
    ensures k < 0 <= k + n ==> i == k + n
    ensures k + n < 0 ==> i == 0
    ensures n < k ==> i == n
  {
    if k < 0 then (if k + n < 0 then 0 else k + n) else if k > n then n else k
  }
}
