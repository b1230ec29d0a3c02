/**
 * getRepositorySize: the `size ` and `size-pack ` values of
 * `count-objects -v`, each read as KiB, summed in bytes; 0 when the command
 * fails. A value parseInt cannot read makes the total NaN.
 */
module Footprint {
  import opened Wrappers
  import opened JsText
  import opened Git
  import opened Report

  /** JavaScript addition on the numbers that arise here: NaN absorbs everything. */
  function Plus(a: Number, b: Number): Number {
    if a.Finite? && b.Finite? then Finite(a.value + b.value) else NaN
  }

  /** `parseInt(value) * 1024`: a count of KiB in bytes, NaN when nothing could be read. */
  function Scale(kib: Option<int>): Number {
    match kib
    case Some(k) => Finite(k * 1024)
    case None => NaN
  }

  /** A line starting with a key that holds a space has a second space-separated field. */
  lemma KeyedLineFields(line: string, key: string)
    requires ' ' in key && StartsWith(line, key)
    ensures |Split(line, ' ')| >= 2
  {
    var k :| 0 <= k < |key| && key[k] == ' ';
    assert line[k] == key[k];
    SplitAtSeparator(line, ' ');
  }

  /**
   * What one `if` of the loop adds for one line: `parseInt` of the second
   * space-separated field, times 1024, when the line starts with `key`, and
   * nothing otherwise.
   */
  function Term(line: string, key: string): Number
    requires ' ' in key
  {
    if StartsWith(line, key) then
      KeyedLineFields(line, key);
      Scale(ParseInt(Split(line, ' ')[1]))
    else Finite(0)
  }

  /** What one line adds: the `size ` term, then the `size-pack ` term. */
  function LineSize(line: string): Number {
    Plus(Term(line, "size "), Term(line, "size-pack "))
  }

  /** The JavaScript sum of what each line adds, from the first line to the last. */
  function Sum(lines: seq<string>, value: string -> Number): Number {
    if lines == [] then Finite(0)
    else Plus(Sum(lines[..|lines| - 1], value), value(lines[|lines| - 1]))
  }

  /** The running total after the given lines. */
  function TotalSize(lines: seq<string>): Number {
    Sum(lines, LineSize)
  }

  /** The repository size: 0 when `count-objects -v` fails. */
  function RepositorySize(git: Oracle): Number {
    match Exec(git.objectCounts)
    case None => Finite(0)
    case Some(output) => TotalSize(Split(output, '\n'))
  }

  lemma SumSnoc(lines: seq<string>, line: string, value: string -> Number)
    ensures Sum(lines + [line], value) == Plus(Sum(lines, value), value(line))
  {
    assert (lines + [line])[..|lines|] == lines;
  }

  /** The total after one more line. */
  lemma TotalSizeSnoc(lines: seq<string>, line: string)
    ensures TotalSize(lines + [line]) == Plus(TotalSize(lines), LineSize(line))
  {
    SumSnoc(lines, line, LineSize);
  }

  lemma TotalSizeStep(lines: seq<string>, i: nat)
    requires i < |lines|
    ensures TotalSize(lines[..i + 1]) == Plus(TotalSize(lines[..i]), LineSize(lines[i]))
  {
    assert lines[..i + 1] == lines[..i] + [lines[i]];
    SumSnoc(lines[..i], lines[i], LineSize);
  }

  /** The two additions of one iteration amount to adding what the line adds. */
  lemma PlusAssociates(a: Number, b: Number, c: Number)
    ensures Plus(Plus(a, b), c) == Plus(a, Plus(b, c))
  {
  }

  /** Adding 0 changes nothing, NaN included. */
  lemma PlusZero(total: Number)
    ensures Plus(total, Finite(0)) == total
  {
  }

  /** A line without the key leaves the total as it is, NaN included. */
  lemma Unkeyed(total: Number, line: string, key: string)
    requires ' ' in key && !StartsWith(line, key)
    ensures Plus(total, Term(line, key)) == total
  {
  }

  /** getRepositorySize, accumulating over the lines. */
  method GetRepositorySize(git: Oracle) returns (totalSize: Number)
    ensures totalSize == RepositorySize(git)
  {
    var sizeOutput := Exec(git.objectCounts);
    if sizeOutput.None? {
      return Finite(0);
    }
    var lines := Split(sizeOutput.value, '\n');
    totalSize := Finite(0);
    for i := 0 to |lines|
      invariant totalSize == TotalSize(lines[..i])
    {
      TotalSizeStep(lines, i);
      ghost var before := totalSize;
      var line := lines[i];
      if StartsWith(line, "size ") {
        KeyedLineFields(line, "size ");
        totalSize := Plus(totalSize, Scale(ParseInt(Split(line, ' ')[1])));
      } else {
        Unkeyed(totalSize, line, "size ");
      }
      assert totalSize == Plus(before, Term(line, "size "));
      if StartsWith(line, "size-pack ") {
        KeyedLineFields(line, "size-pack ");
        totalSize := Plus(totalSize, Scale(ParseInt(Split(line, ' ')[1])));
      } else {
        Unkeyed(totalSize, line, "size-pack ");
      }
      assert totalSize == Plus(Plus(before, Term(line, "size ")), Term(line, "size-pack "));
      PlusAssociates(before, Term(line, "size "), Term(line, "size-pack "));
    }
    assert lines[..|lines|] == lines;
  }

  /** Sums of two runs of lines add up. */
  lemma {:induction false} SumAppend(a: seq<string>, b: seq<string>, value: string -> Number)
    ensures Sum(a + b, value) == Plus(Sum(a, value), Sum(b, value))
  {
    if b == [] {
      assert a + b == a;
    } else {
      var init := b[..|b| - 1];
      var last := b[|b| - 1];
      assert Sum(a + init, value) == Plus(Sum(a, value), Sum(init, value)) by {
        SumAppend(a, init, value);
      }
      assert Sum(a + b, value) == Plus(Sum(a + init, value), value(last)) by {
        assert b == init + [last];
        assert a + b == (a + init) + [last];
        SumSnoc(a + init, last, value);
      }
      assert Sum(b, value) == Plus(Sum(init, value), value(last)) by {
        assert b == init + [last];
        SumSnoc(init, last, value);
      }
      PlusAssociates(Sum(a, value), Sum(init, value), value(last));
    }
  }

  /** Lines that each add 0 add up to 0. */
  lemma {:induction false} SumZero(lines: seq<string>, value: string -> Number)
    requires forall i :: 0 <= i < |lines| ==> value(lines[i]) == Finite(0)
    ensures Sum(lines, value) == Finite(0)
  {
    if lines != [] {
      SumZero(lines[..|lines| - 1], value);
    }
  }

  /** Lines add up independently: the total of two runs of lines is the sum of their totals. */
  lemma TotalSizeAppend(a: seq<string>, b: seq<string>)
    ensures TotalSize(a + b) == Plus(TotalSize(a), TotalSize(b))
  {
    SumAppend(a, b, LineSize);
  }

  /** A text differing from a prefix at one of its positions does not start with it. */
  lemma DiffersAt(s: string, prefix: string, k: nat)
    requires k < |prefix| && (k >= |s| || s[k] != prefix[k])
    ensures !StartsWith(s, prefix)
  {
    if |prefix| <= |s| {
      assert s[..|prefix|][k] == s[k];
    }
  }

  lemma KeyedTerm(line: string, key: string, value: string)
    requires ' ' in key && StartsWith(line, key)
    requires |Split(line, ' ')| == 2 && Split(line, ' ')[1] == value
    ensures Term(line, key) == Scale(ParseInt(value))
  {
  }

  /** The second field of `<key> <value>` is the value, when neither holds a space. */
  lemma KeyLineFields(key: string, value: string)
    requires ' ' !in key && ' ' !in value
    ensures Split(key + " " + value, ' ') == [key, value]
  {
    assert key + " " + value == key + [' '] + value;
    SplitCons(key, value, ' ');
    SplitAlone(value, ' ');
  }

  /** A numeral holds no space. */
  lemma NumeralHasNoSpace(n: nat)
    ensures ' ' !in Decimal(n)
  {
    forall i | 0 <= i < |Decimal(n)| ensures Decimal(n)[i] != ' ' {
      assert IsDecimalDigit(Decimal(n)[i]);
    }
  }

  /** A `size <value>` line adds the value, read as KiB: the `size-pack ` test does not match it. */
  lemma SizeLine(value: string)
    requires ' ' !in value
    ensures LineSize("size " + value) == Scale(ParseInt(value))
  {
    var line := "size " + value;
    assert "size "[4] == ' ';
    KeyLineFields("size", value);
    assert "size" + " " + value == line;
    assert line[..5] == "size ";
    KeyedTerm(line, "size ", value);
    assert line[4] == ' ';
    DiffersAt(line, "size-pack ", 4);
  }

  /** A `size-pack <value>` line adds the value, read as KiB: the `size ` test does not match it. */
  lemma SizePackLine(value: string)
    requires ' ' !in value
    ensures LineSize("size-pack " + value) == Scale(ParseInt(value))
  {
    var line := "size-pack " + value;
    assert "size-pack "[9] == ' ';
    KeyLineFields("size-pack", value);
    assert "size-pack" + " " + value == line;
    assert line[..10] == "size-pack ";
    KeyedTerm(line, "size-pack ", value);
    assert line[4] == '-';
    DiffersAt(line, "size ", 4);
  }

  /** A line that starts with neither key. */
  predicate Unrelated(line: string) {
    !StartsWith(line, "size ") && !StartsWith(line, "size-pack ")
  }

  /** A line starting with neither key adds 0. */
  lemma UnrelatedLine(line: string)
    requires Unrelated(line)
    ensures LineSize(line) == Finite(0)
  {
    assert Term(line, "size ") == Finite(0);
    assert Term(line, "size-pack ") == Finite(0);
  }

  /** A line starting with neither key leaves the total as it is, NaN included. */
  lemma UnrelatedAppended(lines: seq<string>, line: string)
    requires Unrelated(line)
    ensures TotalSize(lines + [line]) == TotalSize(lines)
  {
    TotalSizeSnoc(lines, line);
    UnrelatedLine(line);
    PlusZero(TotalSize(lines));
  }

  /** `size-garbage <value>` starts with neither key, though it starts with `size`. */
  lemma SizeGarbageUnrelated(value: string)
    ensures Unrelated("size-garbage " + value)
  {
    var line := "size-garbage " + value;
    assert line[4] == '-' && line[5] == 'g';
    DiffersAt(line, "size ", 4);
    DiffersAt(line, "size-pack ", 5);
  }

  /** A `size <n>` line adds n KiB to the total, in bytes. */
  lemma SizeAppended(lines: seq<string>, n: nat)
    ensures TotalSize(lines + ["size " + Decimal(n)]) == Plus(TotalSize(lines), Finite(n * 1024))
  {
    SumSnoc(lines, "size " + Decimal(n), LineSize);
    SizeNumeral(n);
  }

  /** A `size-pack <n>` line adds n KiB to the total, in bytes. */
  lemma SizePackAppended(lines: seq<string>, n: nat)
    ensures TotalSize(lines + ["size-pack " + Decimal(n)]) == Plus(TotalSize(lines), Finite(n * 1024))
  {
    SumSnoc(lines, "size-pack " + Decimal(n), LineSize);
    SizePackNumeral(n);
  }

  /** The line `size <n>` adds n KiB, in bytes. */
  lemma SizeNumeral(n: nat)
    ensures LineSize("size " + Decimal(n)) == Finite(n * 1024)
  {
    NumeralHasNoSpace(n);
    SizeLine(Decimal(n));
    ParseDecimal(n);
  }

  /** The line `size-pack <n>` adds n KiB, in bytes. */
  lemma SizePackNumeral(n: nat)
    ensures LineSize("size-pack " + Decimal(n)) == Finite(n * 1024)
  {
    NumeralHasNoSpace(n);
    SizePackLine(Decimal(n));
    ParseDecimal(n);
  }

  /** Lines that start with neither key add up to 0. */
  lemma UnrelatedTotal(lines: seq<string>)
    requires forall i :: 0 <= i < |lines| ==> Unrelated(lines[i])
    ensures TotalSize(lines) == Finite(0)
  {
    forall i | 0 <= i < |lines| ensures LineSize(lines[i]) == Finite(0) {
      UnrelatedLine(lines[i]);
    }
    SumZero(lines, LineSize);
  }

  /** Two lines adding x and y, between runs of lines adding up to 0, give x + y. */
  lemma {:induction false} TwoLinesSum(before: seq<string>, after: seq<string>, first: string, second: string,
                                       value: string -> Number, x: int, y: int)
    requires Sum(before, value) == Finite(0) && Sum(after, value) == Finite(0)
    requires value(first) == Finite(x) && value(second) == Finite(y)
    ensures Sum(before + [first, second] + after, value) == Finite(x + y)
  {
    var upToFirst := before + [first];
    var upToSecond := upToFirst + [second];
    SumSnoc(before, first, value);
    SumSnoc(upToFirst, second, value);
    SumAppend(upToSecond, after, value);
    assert upToSecond == before + [first, second];
  }

  /**
   * The output shape the loop expects: one `size <n>` line and one
   * `size-pack <m>` line among lines that start with neither key give
   * n * 1024 + m * 1024 bytes.
   */
  lemma SizeAndPack(before: seq<string>, after: seq<string>, n: nat, m: nat)
    requires forall i :: 0 <= i < |before| ==> Unrelated(before[i])
    requires forall i :: 0 <= i < |after| ==> Unrelated(after[i])
    ensures TotalSize(before + ["size " + Decimal(n), "size-pack " + Decimal(m)] + after) == Finite(n * 1024 + m * 1024)
  {
    UnrelatedTotal(before);
    UnrelatedTotal(after);
    SizeNumeral(n);
    SizePackNumeral(m);
    TwoLinesSum(before, after, "size " + Decimal(n), "size-pack " + Decimal(m), LineSize, n * 1024, m * 1024);
  }

  /** A keyed line whose value parseInt cannot read makes the total NaN, and NaN stays. */
  lemma UnreadableValue(lines: seq<string>, more: seq<string>, value: string)
    requires ' ' !in value && ParseInt(value).None?
    ensures TotalSize(lines + ["size " + value]) == NaN
    ensures TotalSize(lines + ["size " + value] + more) == NaN
  {
    SumSnoc(lines, "size " + value, LineSize);
    SizeLine(value);
    SumAppend(lines + ["size " + value], more, LineSize);
  }

  /** A line `<key>:<value>` does not start with a prefix that ends in a space and holds no colon. */
  lemma ColonLineDiffers(key: string, value: string, prefix: string)
    requires ' ' !in key && ':' !in prefix
    requires |prefix| > 0 && prefix[|prefix| - 1] == ' '
    ensures !StartsWith(key + ":" + value, prefix)
  {
    var line := key + ":" + value;
    var s := |prefix| - 1;
    if s < |key| {
      assert line[s] == key[s];
      DiffersAt(line, prefix, s);
    } else {
      assert line[|key|] == ':';
      DiffersAt(line, prefix, |key|);
    }
  }

  /**
   * A line `<key>:<value>` with no space in its key, the shape `git
   * count-objects -v` prints, never starts with either key the loop looks
   * for, so it adds nothing.
   */
  lemma ColonLineIgnored(key: string, value: string)
    requires ' ' !in key
    ensures Unrelated(key + ":" + value)
  {
    assert "size "[4] == ' ';
    assert "size-pack "[9] == ' ';
    ColonLineDiffers(key, value, "size ");
    ColonLineDiffers(key, value, "size-pack ");
  }

  /** Output made only of `<key>:<value>` lines, as git prints it, gives a size of 0. */
  lemma ColonFormatTotal(keys: seq<string>, values: seq<string>)
    requires |keys| == |values|
    requires forall i :: 0 <= i < |keys| ==> ' ' !in keys[i]
    ensures TotalSize(seq(|keys|, i requires 0 <= i < |keys| => keys[i] + ":" + values[i])) == Finite(0)
  {
    var lines := seq(|keys|, i requires 0 <= i < |keys| => keys[i] + ":" + values[i]);
    forall i | 0 <= i < |lines| ensures Unrelated(lines[i]) {
      ColonLineIgnored(keys[i], values[i]);
    }
    UnrelatedTotal(lines);
  }
}
