/** One benchmark log read by the plotting script: five header lines (threads,
    duration, repetitions, and the per-thread enqueue and dequeue batch sizes),
    then any number of lines holding one `Summary STATS:` block per repetition.
    The script checks the header against the file name, sums the blocks and
    divides by the repetition count; runs are ordered by thread count. */
module RunStats {
  import opened Wrappers
  import opened Text
  import opened Sorting
  import opened LogNames

  /** The line that opens a summary block, once stripped. */
  const Marker := "Summary STATS:"

  /** `file.readline()`: the next line, or the empty string past the end. */
  function Line(lines: seq<string>, k: nat): string
  {
    if k < |lines| then lines[k] else ""
  }

  /** `int(line.split()[-1])`. */
  function LastInt(line: string): Result<int, Error>
  {
    var ws := Words(line);
    if ws == [] then Err(IndexError) else ParseInt(ws[|ws| - 1])
  }

  /** `[int(w) for w in ws]`. */
  function ParseInts(ws: seq<string>): (rs: seq<Result<int, Error>>)
    ensures |rs| == |ws| && forall i :: 0 <= i < |ws| ==> rs[i] == ParseInt(ws[i])
  {
    seq(|ws|, i requires 0 <= i < |ws| => ParseInt(ws[i]))
  }

  /** The enqueue or dequeue header line: every integer between the last `[` and
      the following `]` when there is a `[`, otherwise the last word alone. */
  function RawCounts(line: string): Result<seq<int>, Error>
  {
    if '[' in line then
      var pieces := Split(line, '[');
      AllOk(ParseInts(Words(Split(pieces[|pieces| - 1], ']')[0])))
    else
      var n :- LastInt(line);
      Ok([n])
  }

  function ShowAll(ns: seq<nat>): (ws: seq<string>)
    ensures |ws| == |ns| && forall i :: 0 <= i < |ns| ==> ws[i] == ShowNat(ns[i])
  {
    seq(|ns|, i requires 0 <= i < |ns| => ShowNat(ns[i]))
  }

  /** Numbers joined by spaces hold no bracket. */
  lemma NoBrackets(ws: seq<string>)
    requires |ws| >= 1 && forall i :: 0 <= i < |ws| ==> '[' !in ws[i] && ']' !in ws[i]
    ensures '[' !in Join(ws, ' ') && ']' !in Join(ws, ' ')
  {
    if '[' in Join(ws, ' ') {
      JoinMembers(ws, ' ', '[');
    }
    if ']' in Join(ws, ' ') {
      JoinMembers(ws, ' ', ']');
    }
  }

  lemma ShownNoBrackets(ns: seq<nat>)
    ensures forall i :: 0 <= i < |ns| ==> IsWord(ShowAll(ns)[i]) && '[' !in ShowAll(ns)[i] && ']' !in ShowAll(ns)[i]
  {
    forall i | 0 <= i < |ns|
      ensures IsWord(ShowAll(ns)[i]) && '[' !in ShowAll(ns)[i] && ']' !in ShowAll(ns)[i]
    {
      var s := ShowNat(ns[i]);
      assert forall k :: 0 <= k < |s| ==> IsDigit(s[k]);
    }
  }

  /** A bracketed list written by the benchmark reads back as its numbers. */
  lemma {:induction false} RawCountsList(prefix: string, ns: seq<nat>)
    requires '[' !in prefix && |ns| >= 1
    ensures var r := RawCounts(prefix + "[" + Join(ShowAll(ns), ' ') + "]");
      r.Ok? && r.value == ns
  {
    var ws := ShowAll(ns);
    var inner := Join(ws, ' ');
    var line := prefix + "[" + inner + "]";
    ShownNoBrackets(ns);
    NoBrackets(ws);
    BracketInner(prefix, inner, line);
    WordsJoin(ws);
    ParseShown(ns);
  }

  /** A line with one pair of brackets yields the numbers between them. */
  lemma BracketInner(prefix: string, inner: string, line: string)
    requires '[' !in prefix && '[' !in inner && ']' !in inner
    requires line == prefix + "[" + inner + "]"
    ensures RawCounts(line) == AllOk(ParseInts(Words(inner)))
  {
    assert line == prefix + ['['] + (inner + "]");
    assert line[|prefix|] == '[';
    SplitFirst(prefix, '[', inner + "]");
    SplitNoSep(inner + "]", '[');
    assert inner + "]" == inner + [']'] + [];
    SplitFirst(inner, ']', []);
  }

  /** Numbers written out read back as themselves. */
  lemma ParseShown(ns: seq<nat>)
    ensures AllOk(ParseInts(ShowAll(ns))).Ok? && AllOk(ParseInts(ShowAll(ns))).value == ns
  {
    var rs := ParseInts(ShowAll(ns));
    forall i | 0 <= i < |ns| ensures rs[i] == Ok(ns[i] as int) {
      ParseIntShow(ns[i]);
    }
  }

  /** A line ending in a single number, with no `[`, reads back as that number alone. */
  lemma {:induction false} RawCountsScalar(ws: seq<string>, n: nat)
    requires forall i :: 0 <= i < |ws| ==> IsWord(ws[i]) && '[' !in ws[i] && ']' !in ws[i]
    ensures RawCounts(Join(ws + [ShowNat(n)], ' ')) == Ok([n])
  {
    var all := ws + [ShowNat(n)];
    ShownNoBrackets([n]);
    assert ShowAll([n])[0] == ShowNat(n);
    NoBrackets(all);
    WordsJoin(all);
    ParseIntShow(n);
  }

  /** Python's `float(s)` on a plain decimal: optional surrounding whitespace, an
      optional sign, digits with at most one `.`, and at least one digit. */
  function ParseFloat(s: string): (r: Result<real, Error>)
    ensures r.Err? ==> r.error == ValueError
  {
    var t := Strip(s);
    if t != [] && (t[0] == '+' || t[0] == '-') then
      var v :- Unsigned(Split(t[1..], '.'));
      Ok(if t[0] == '-' then -v else v)
    else Unsigned(Split(t, '.'))
  }

  /** The pieces of an unsigned decimal around its `.`: digits, at most one point,
      and at least one digit. */
  function Unsigned(parts: seq<string>): (r: Result<real, Error>)
    requires |parts| >= 1
    ensures r.Err? ==> r.error == ValueError
  {
    var whole := parts[0];
    var frac := if |parts| == 2 then parts[1] else [];
    if |parts| > 2 || !AllDigits(whole) || !AllDigits(frac) || (whole == [] && frac == []) then Err(ValueError)
    else Ok(DecimalValue(whole, frac))
  }

  /** The value of the digits `whole`, a point, and the digits `frac`. */
  function DecimalValue(whole: string, frac: string): real
    requires AllDigits(whole) && AllDigits(frac)
  {
    DigitsValue(whole) as real + DigitsValue(frac) as real / Pow10(|frac|) as real
  }

  /** A decimal written as `<whole>.<fraction>` reads back as its value. */
  lemma ParseFloatDecimal(whole: nat, frac: string)
    requires AllDigits(frac)
    ensures ParseFloat(ShowNat(whole) + "." + frac) == Ok(DecimalValue(ShowNat(whole), frac))
    ensures ParseFloat(ShowNat(whole) + "." + frac).Ok?
    ensures ParseFloat(ShowNat(whole) + "." + frac).value
         == whole as real + DigitsValue(frac) as real / Pow10(|frac|) as real
  {
    var w := ShowNat(whole);
    var s := w + "." + frac;
    DecimalShape(w, frac);
    assert ParseFloat(s) == Unsigned([w, frac]);
  }

  lemma DecimalShape(w: string, frac: string)
    requires w != [] && AllDigits(w) && AllDigits(frac)
    ensures Strip(w + "." + frac) == w + "." + frac
    ensures Split(w + "." + frac, '.') == [w, frac]
  {
    var s := w + "." + frac;
    assert s[0] == w[0] && IsDigit(w[0]);
    assert s[|s| - 1] == if frac == [] then '.' else frac[|frac| - 1];
    StripClean(s);
    assert s == w + ['.'] + frac;
    assert '.' !in w by {
      assert forall k :: 0 <= k < |w| ==> IsDigit(w[k]);
    }
    assert '.' !in frac by {
      assert forall k :: 0 <= k < |frac| ==> IsDigit(frac[k]);
    }
    SplitFirst(w, '.', frac);
    SplitNoSep(frac, '.');
  }

  /** The counters of one `Summary STATS:` block. */
  datatype Block = Block(
    duration: real,
    enqSucc: int, enqFail: int, deqSucc: int, deqFail: int,
    freelistInsert: int, freelistMax: int, casSucc: int, casFail: int)

  /** `int(lines[k].split()[-1])`. */
  function IntAt(rest: seq<string>, k: nat): Result<int, Error>
  {
    var line :- Field(rest, k);
    LastInt(line)
  }

  /** The block whose marker is at `rest[i]`: the second word of the next line is
      the duration, and the last word of each of the eight lines after it is a
      counter, read in this order. */
  function ParseBlock(rest: seq<string>, i: nat): (r: Result<Block, Error>)
    ensures i + 1 >= |rest| ==> r == Err(IndexError)
    ensures r.Ok? ==> i + 10 <= |rest|
  {
    var line :- Field(rest, i + 1);
    var word :- Field(Words(line), 1);
    var duration :- ParseFloat(word);
    var enqSucc :- IntAt(rest, i + 2);
    var enqFail :- IntAt(rest, i + 3);
    var deqSucc :- IntAt(rest, i + 4);
    var deqFail :- IntAt(rest, i + 5);
    var freelistInsert :- IntAt(rest, i + 6);
    var freelistMax :- IntAt(rest, i + 7);
    var casSucc :- IntAt(rest, i + 8);
    var casFail :- IntAt(rest, i + 9);
    Ok(Block(duration, enqSucc, enqFail, deqSucc, deqFail, freelistInsert, freelistMax, casSucc, casFail))
  }

  /** A block reads only the nine lines after its marker: two logs that agree on
      those lines give the same block, or the same error. */
  lemma ParseBlockLocal(a: seq<string>, b: seq<string>, i: nat)
    requires i + 10 <= |a| && i + 10 <= |b| && a[i + 1..i + 10] == b[i + 1..i + 10]
    ensures ParseBlock(a, i) == ParseBlock(b, i)
  {
    forall k | i + 1 <= k < i + 10 ensures a[k] == b[k] {
      assert a[k] == a[i + 1..i + 10][k - (i + 1)];
    }
    assert Field(a, i + 1) == Field(b, i + 1);
    assert IntAt(a, i + 2) == IntAt(b, i + 2) && IntAt(a, i + 3) == IntAt(b, i + 3);
    assert IntAt(a, i + 4) == IntAt(b, i + 4) && IntAt(a, i + 5) == IntAt(b, i + 5);
    assert IntAt(a, i + 6) == IntAt(b, i + 6) && IntAt(a, i + 7) == IntAt(b, i + 7);
    assert IntAt(a, i + 8) == IntAt(b, i + 8) && IntAt(a, i + 9) == IntAt(b, i + 9);
  }

  /** A line as `printf` writes it: a leading space, then words separated by single
      spaces. */
  function Printed(ws: seq<string>): string
    requires |ws| >= 1
  {
    " " + Join(ws, ' ')
  }

  /** The words of a printed line are the words it was printed from. */
  lemma PrintedWords(ws: seq<string>)
    requires |ws| >= 1 && forall i :: 0 <= i < |ws| ==> IsWord(ws[i])
    ensures Words(Printed(ws)) == ws
  {
    var line := Printed(ws);
    assert line == [] + [' '] + Join(ws, ' ');
    WordsAt([], ' ', Join(ws, ' '));
    WordsJoin(ws);
  }

  /** ` <name>: <n>`, one counter line of `print_stats`. */
  function CounterLine(name: string, n: nat): string
  {
    Printed([name + ":", ShowNat(n)])
  }

  /** ` duration: <whole>.<frac> sec`, the duration line of `print_stats`. */
  function DurationLine(whole: nat, frac: string): string
  {
    Printed(["duration:", ShowNat(whole) + "." + frac, "sec"])
  }

  /** The nine lines `print_stats` writes after `STATS:`, in its order. */
  function StatsLines(whole: nat, frac: string, b: Block): seq<string>
    requires b.enqSucc >= 0 && b.enqFail >= 0 && b.deqSucc >= 0 && b.deqFail >= 0
    requires b.freelistInsert >= 0 && b.freelistMax >= 0 && b.casSucc >= 0 && b.casFail >= 0
  {
    [DurationLine(whole, frac),
     CounterLine("enq_succ", b.enqSucc), CounterLine("enq_fail", b.enqFail),
     CounterLine("deq_succ", b.deqSucc), CounterLine("deq_fail", b.deqFail),
     CounterLine("freelist_insert", b.freelistInsert), CounterLine("freelist_max", b.freelistMax),
     CounterLine("cas_succ", b.casSucc), CounterLine("cas_fail", b.casFail)]
  }

  /** A counter line reads back as its number. */
  lemma CounterLineShow(name: string, n: nat)
    requires IsWord(name)
    ensures LastInt(CounterLine(name, n)) == Ok(n as int)
  {
    var w := name + ":";
    assert IsWord(w) by {
      assert forall k :: 0 <= k < |name| ==> w[k] == name[k];
    }
    var d := ShowNat(n);
    assert IsWord(d) by {
      assert forall k :: 0 <= k < |d| ==> IsDigit(d[k]);
    }
    PrintedWords([w, d]);
    ParseIntShow(n);
  }

  /** The duration line yields its value as the second word. */
  lemma DurationLineShow(whole: nat, frac: string)
    requires AllDigits(frac)
    ensures |Words(DurationLine(whole, frac))| > 1
    ensures ParseFloat(Words(DurationLine(whole, frac))[1]) == Ok(DecimalValue(ShowNat(whole), frac))
  {
    var w := ShowNat(whole);
    var d := w + "." + frac;
    assert IsWord(d) by {
      assert forall k :: 0 <= k < |w| ==> d[k] == w[k] && IsDigit(w[k]);
      assert forall k :: |w| < k < |d| ==> d[k] == frac[k - |w| - 1];
    }
    assert IsWord("duration:") && IsWord("sec");
    PrintedWords(["duration:", d, "sec"]);
    ParseFloatDecimal(whole, frac);
    assert Words(DurationLine(whole, frac))[1] == d;
  }

  /** The labels of the counter lines are single words. */
  lemma LabelsAreWords()
    ensures IsWord("enq_succ") && IsWord("enq_fail") && IsWord("deq_succ") && IsWord("deq_fail")
    ensures IsWord("freelist_insert") && IsWord("freelist_max") && IsWord("cas_succ") && IsWord("cas_fail")
  {
  }

  /** A counter line at index `k` of the log reads back as its number. */
  lemma IntAtShow(rest: seq<string>, k: nat, name: string, n: nat)
    requires IsWord(name) && k < |rest| && rest[k] == CounterLine(name, n)
    ensures IntAt(rest, k) == Ok(n as int)
  {
    CounterLineShow(name, n);
  }

  /** A block is read from its duration word and its eight counters. */
  lemma ParseBlockOf(rest: seq<string>, i: nat, b: Block)
    requires i + 1 < |rest| && |Words(rest[i + 1])| > 1
    requires ParseFloat(Words(rest[i + 1])[1]) == Ok(b.duration)
    requires IntAt(rest, i + 2) == Ok(b.enqSucc) && IntAt(rest, i + 3) == Ok(b.enqFail)
    requires IntAt(rest, i + 4) == Ok(b.deqSucc) && IntAt(rest, i + 5) == Ok(b.deqFail)
    requires IntAt(rest, i + 6) == Ok(b.freelistInsert) && IntAt(rest, i + 7) == Ok(b.freelistMax)
    requires IntAt(rest, i + 8) == Ok(b.casSucc) && IntAt(rest, i + 9) == Ok(b.casFail)
    ensures ParseBlock(rest, i) == Ok(b)
  {
  }

  /** The nine lines of `StatsLines`, one by one, at their places in the log. */
  lemma StatsLinesAt(rest: seq<string>, i: nat, whole: nat, frac: string, b: Block)
    requires b.enqSucc >= 0 && b.enqFail >= 0 && b.deqSucc >= 0 && b.deqFail >= 0
    requires b.freelistInsert >= 0 && b.freelistMax >= 0 && b.casSucc >= 0 && b.casFail >= 0
    requires i + 10 <= |rest| && rest[i + 1..i + 10] == StatsLines(whole, frac, b)
    ensures rest[i + 1] == DurationLine(whole, frac)
    ensures rest[i + 2] == CounterLine("enq_succ", b.enqSucc) && rest[i + 3] == CounterLine("enq_fail", b.enqFail)
    ensures rest[i + 4] == CounterLine("deq_succ", b.deqSucc) && rest[i + 5] == CounterLine("deq_fail", b.deqFail)
    ensures rest[i + 6] == CounterLine("freelist_insert", b.freelistInsert)
    ensures rest[i + 7] == CounterLine("freelist_max", b.freelistMax)
    ensures rest[i + 8] == CounterLine("cas_succ", b.casSucc) && rest[i + 9] == CounterLine("cas_fail", b.casFail)
  {
    var ls := StatsLines(whole, frac, b);
    SliceAt(rest, i + 1, ls);
    assert rest[i + 1] == ls[0] && rest[i + 2] == ls[1] && rest[i + 3] == ls[2];
    assert rest[i + 4] == ls[3] && rest[i + 5] == ls[4] && rest[i + 6] == ls[5];
    assert rest[i + 7] == ls[6] && rest[i + 8] == ls[7] && rest[i + 9] == ls[8];
  }

  /** The lines of a slice are the lines of the log at their places. */
  lemma SliceAt(rest: seq<string>, j: nat, ls: seq<string>)
    requires j + |ls| <= |rest| && rest[j..j + |ls|] == ls
    ensures forall k :: 0 <= k < |ls| ==> rest[j + k] == ls[k]
  {
    forall k | 0 <= k < |ls| ensures rest[j + k] == ls[k] {
      assert rest[j + k] == rest[j..j + |ls|][k];
    }
  }

  /** The block `print_stats` writes after a marker reads back as that block: each
      counter comes from its own line, in the order they are printed. */
  lemma ParseBlockShow(rest: seq<string>, i: nat, whole: nat, frac: string, b: Block)
    requires AllDigits(frac) && b.duration == DecimalValue(ShowNat(whole), frac)
    requires b.enqSucc >= 0 && b.enqFail >= 0 && b.deqSucc >= 0 && b.deqFail >= 0
    requires b.freelistInsert >= 0 && b.freelistMax >= 0 && b.casSucc >= 0 && b.casFail >= 0
    requires i + 10 <= |rest| && rest[i + 1..i + 10] == StatsLines(whole, frac, b)
    ensures ParseBlock(rest, i) == Ok(b)
  {
    StatsLinesAt(rest, i, whole, frac, b);
    LabelsAreWords();
    DurationLineShow(whole, frac);
    IntAtShow(rest, i + 2, "enq_succ", b.enqSucc);
    IntAtShow(rest, i + 3, "enq_fail", b.enqFail);
    IntAtShow(rest, i + 4, "deq_succ", b.deqSucc);
    IntAtShow(rest, i + 5, "deq_fail", b.deqFail);
    IntAtShow(rest, i + 6, "freelist_insert", b.freelistInsert);
    IntAtShow(rest, i + 7, "freelist_max", b.freelistMax);
    IntAtShow(rest, i + 8, "cas_succ", b.casSucc);
    IntAtShow(rest, i + 9, "cas_fail", b.casFail);
    ParseBlockOf(rest, i, b);
  }

  predicate IsMarker(line: string)
  {
    Strip(line) == Marker
  }

  /** The positions of the marker lines among the first `n` lines, in order. */
  function Markers(rest: seq<string>, n: nat): (ms: seq<nat>)
    requires n <= |rest|
    ensures forall k :: 0 <= k < |ms| ==> ms[k] < n && IsMarker(rest[ms[k]])
    ensures forall i :: 0 <= i < n && IsMarker(rest[i]) ==> i in ms
    ensures forall k, l :: 0 <= k < l < |ms| ==> ms[k] < ms[l]
  {
    if n == 0 then []
    else Markers(rest, n - 1) + (if IsMarker(rest[n - 1]) then [n - 1] else [])
  }

  /** The parse of each block whose marker is among the first `n` lines. */
  function BlockResults(rest: seq<string>, n: nat): (rs: seq<Result<Block, Error>>)
    requires n <= |rest|
    ensures |rs| == |Markers(rest, n)|
    ensures forall k :: 0 <= k < |rs| ==> rs[k] == ParseBlock(rest, Markers(rest, n)[k])
  {
    var ms := Markers(rest, n);
    seq(|ms|, k requires 0 <= k < |ms| => ParseBlock(rest, ms[k]))
  }

  lemma BlockResultsStep(rest: seq<string>, i: nat)
    requires i < |rest|
    ensures BlockResults(rest, i + 1)
         == BlockResults(rest, i) + (if IsMarker(rest[i]) then [ParseBlock(rest, i)] else [])
  {
  }

  lemma {:induction false} BlockResultsPrefix(rest: seq<string>, i: nat, j: nat)
    requires i <= j <= |rest|
    ensures |BlockResults(rest, i)| <= |BlockResults(rest, j)|
    ensures BlockResults(rest, j)[..|BlockResults(rest, i)|] == BlockResults(rest, i)
    decreases j
  {
    if i < j {
      BlockResultsPrefix(rest, i, j - 1);
      BlockResultsStep(rest, j - 1);
    }
  }

  function Max(a: int, b: int): int
  {
    if a < b then b else a
  }

  /** What the loop has accumulated before any block. */
  const NoBlocks := Block(0.0, 0, 0, 0, 0, 0, 0, 0, 0)

  /** One block added to the accumulated counters: sums, and the larger maximum. */
  function Add(t: Block, b: Block): Block
  {
    Block(t.duration + b.duration, t.enqSucc + b.enqSucc, t.enqFail + b.enqFail,
          t.deqSucc + b.deqSucc, t.deqFail + b.deqFail, t.freelistInsert + b.freelistInsert,
          Max(t.freelistMax, b.freelistMax), t.casSucc + b.casSucc, t.casFail + b.casFail)
  }

  /** The blocks accumulated in order. */
  function Totals(bs: seq<Block>): Block
  {
    if bs == [] then NoBlocks else Add(Totals(bs[..|bs| - 1]), bs[|bs| - 1])
  }

  /** The accumulated maximum is the largest block maximum, or 0 when every block's
      is negative or there is none: the accumulator starts at 0. */
  lemma {:induction false} TotalsMax(bs: seq<Block>)
    ensures Totals(bs).freelistMax >= 0
    ensures forall k :: 0 <= k < |bs| ==> bs[k].freelistMax <= Totals(bs).freelistMax
    ensures Totals(bs).freelistMax == 0 || exists k :: 0 <= k < |bs| && bs[k].freelistMax == Totals(bs).freelistMax
  {
    if bs != [] {
      var init := bs[..|bs| - 1];
      TotalsMax(init);
      assert forall k :: 0 <= k < |init| ==> init[k] == bs[k];
    }
  }

  /** Adding no blocks leaves the totals as they are. */
  lemma TotalsRightUnit(a: seq<Block>)
    ensures Add(Totals(a), NoBlocks) == Totals(a)
  {
    var t := Totals(a);
    TotalsMax(a);
    AddNoBlocks(t);
  }

  lemma TotalsSnoc(bs: seq<Block>, b: Block)
    ensures Totals(bs + [b]) == Add(Totals(bs), b)
  {
    assert (bs + [b])[..|bs|] == bs;
  }

  lemma AddNoBlocks(t: Block)
    requires t.freelistMax >= 0
    ensures Add(t, NoBlocks) == t
  {
  }

  lemma AddAssociative(x: Block, y: Block, z: Block)
    ensures Add(Add(x, y), z) == Add(x, Add(y, z))
  {
  }

  /** Accumulating two runs of blocks one after the other is adding their totals:
      the order in which blocks are split does not matter. */
  lemma {:induction false} TotalsAppend(a: seq<Block>, b: seq<Block>)
    ensures Totals(a + b) == Add(Totals(a), Totals(b))
    decreases |b|
  {
    if b == [] {
      TotalsRightUnit(a);
      assert a + b == a;
    } else {
      var b', x := b[..|b| - 1], b[|b| - 1];
      assert Totals(a + b) == Add(Totals(a + b'), x) by {
        assert (a + b)[..|a + b| - 1] == a + b';
        assert (a + b)[|a + b| - 1] == x;
      }
      TotalsAppend(a, b');
      AddAssociative(Totals(a), Totals(b'), x);
    }
  }

  /** The five header lines. */
  datatype Header = Header(
    threads: int, duration: int, batch: int, repetitions: int, enques: seq<int>, deques: seq<int>)

  /** The fields taken from the log's name. */
  datatype Named = Named(threads: int, duration: int, batch: int)

  function FromName(filename: string): Result<Named, Error>
  {
    var threads :- GetThreads(filename);
    var duration :- GetDuration(filename);
    var batch :- GetBatch(filename);
    Ok(Named(threads, duration, batch))
  }

  /** The header lines, checked against the fields taken from the name. */
  function ReadHeader(named: Named, lines: seq<string>): Result<Header, Error>
  {
    var threads, duration, batch := named.threads, named.duration, named.batch;
    var fileThreads :- LastInt(Line(lines, 0));
    if fileThreads != threads then Err(ThreadsMismatch(threads, fileThreads))
    else
      var fileDuration :- LastInt(Line(lines, 1));
      if fileDuration != duration then Err(DurationMismatch(duration, fileDuration))
      else
        var repetitions :- LastInt(Line(lines, 2));
        var enques :- RawCounts(Line(lines, 3));
        var deques :- RawCounts(Line(lines, 4));
        Ok(Header(threads, duration, batch, repetitions, enques, deques))
  }

  /** The lines after the header. */
  function Rest(lines: seq<string>): seq<string>
  {
    if |lines| >= 5 then lines[5..] else []
  }

  /** One run's averaged statistics. */
  datatype Run = Run(
    filename: string, threads: int, expDuration: int, batchsize: int, repetitions: int,
    enques: seq<int>, deques: seq<int>,
    duration: real, enqSucc: real, enqFail: real, deqSucc: real, deqFail: real,
    freelistInsert: real, freelistMax: int, casSucc: real, casFail: real)

  /** The repetition check and the division by the repetition count; the maximum
      is not divided. */
  function Average(filename: string, h: Header, count: nat, t: Block): Result<Run, Error>
  {
    if count != h.repetitions then Err(RepetitionsMismatch(h.repetitions, count))
    else if h.repetitions == 0 then Err(ZeroDivisionError)
    else
      var n := h.repetitions as real;
      Ok(Run(filename, h.threads, h.duration, h.batch, h.repetitions, h.enques, h.deques,
             t.duration / n, t.enqSucc as real / n, t.enqFail as real / n,
             t.deqSucc as real / n, t.deqFail as real / n, t.freelistInsert as real / n,
             t.freelistMax, t.casSucc as real / n, t.casFail as real / n))
  }

  /** `Stats.file`: the statistics of the log `filename` whose lines are `lines`. */
  function FileSpec(filename: string, lines: seq<string>): Result<Run, Error>
  {
    var named :- FromName(filename);
    var h :- ReadHeader(named, lines);
    var rest := Rest(lines);
    var blocks :- AllOk(BlockResults(rest, |rest|));
    Average(filename, h, |blocks|, Totals(blocks))
  }

  /** A block read at a marker extends the blocks read so far. */
  lemma BlockOkExtends(rest: seq<string>, i: nat)
    requires i < |rest| && IsMarker(rest[i])
    requires AllOk(BlockResults(rest, i)).Ok? && ParseBlock(rest, i).Ok?
    ensures AllOk(BlockResults(rest, i + 1)).Ok?
    ensures AllOk(BlockResults(rest, i + 1)).value
         == AllOk(BlockResults(rest, i)).value + [ParseBlock(rest, i).value]
  {
    BlockResultsStep(rest, i);
    AllOkSnoc(BlockResults(rest, i), ParseBlock(rest, i));
  }

  /** The first block that fails to read is the error of the whole file. */
  lemma BlockErrStops(rest: seq<string>, i: nat)
    requires i < |rest| && IsMarker(rest[i])
    requires AllOk(BlockResults(rest, i)).Ok? && ParseBlock(rest, i).Err?
    ensures AllOk(BlockResults(rest, |rest|)) == Err(ParseBlock(rest, i).error)
  {
    BlockResultsStep(rest, i);
    AllOkSnoc(BlockResults(rest, i), ParseBlock(rest, i));
    BlockResultsPrefix(rest, i + 1, |rest|);
    AllOkPrefix(BlockResults(rest, |rest|), |BlockResults(rest, i + 1)|);
  }

  /** The loop of `Stats.file` over the lines after the header: counts the markers and
      adds up the block after each, stopping at the first block that cannot be read. */
  method SumBlocks(rest: seq<string>) returns (r: Result<(nat, Block), Error>)
    ensures AllOk(BlockResults(rest, |rest|)).Err? ==> r == Err(AllOk(BlockResults(rest, |rest|)).error)
    ensures AllOk(BlockResults(rest, |rest|)).Ok? ==>
      var blocks := AllOk(BlockResults(rest, |rest|)).value;
      r == Ok((|blocks|, Totals(blocks)))
  {
    var counter := 0;
    var acc := NoBlocks;
    assert BlockResults(rest, 0) == [];
    for i := 0 to |rest|
      invariant AllOk(BlockResults(rest, i)).Ok?
      invariant counter == |BlockResults(rest, i)|
      invariant acc == Totals(AllOk(BlockResults(rest, i)).value)
    {
      BlockResultsStep(rest, i);
      if !IsMarker(rest[i]) {
        assert BlockResults(rest, i + 1) == BlockResults(rest, i);
        continue;
      }
      counter := counter + 1;
      var block := ParseBlock(rest, i);
      if block.Err? {
        BlockErrStops(rest, i);
        return Err(block.error);
      }
      BlockOkExtends(rest, i);
      TotalsSnoc(AllOk(BlockResults(rest, i)).value, block.value);
      acc := Add(acc, block.value);
    }
    r := Ok((counter, acc));
  }

  /** `Stats.file`: the header, then the blocks after it, averaged over the repetitions. */
  method File(filename: string, lines: seq<string>) returns (r: Result<Run, Error>)
    ensures r == FileSpec(filename, lines)
  {
    var named :- FromName(filename);
    var h :- ReadHeader(named, lines);
    var sum :- SumBlocks(Rest(lines));
    r := Average(filename, h, sum.0, sum.1);
  }

  /** A name whose thread count differs from the file's first header line is rejected
      with both counts. */
  lemma ThreadsMismatchRaises(named: Named, lines: seq<string>)
    requires LastInt(Line(lines, 0)).Ok? && LastInt(Line(lines, 0)).value != named.threads
    ensures ReadHeader(named, lines) == Err(ThreadsMismatch(named.threads, LastInt(Line(lines, 0)).value))
  {
  }

  /** A name whose duration differs from the file's second header line is rejected
      with both durations. */
  lemma DurationMismatchRaises(named: Named, lines: seq<string>)
    requires LastInt(Line(lines, 0)) == Ok(named.threads)
    requires LastInt(Line(lines, 1)).Ok? && LastInt(Line(lines, 1)).value != named.duration
    ensures ReadHeader(named, lines) == Err(DurationMismatch(named.duration, LastInt(Line(lines, 1)).value))
  {
  }

  /** A file whose number of summary blocks differs from its declared repetitions is
      rejected with both numbers. */
  lemma RepetitionsMismatchRaises(filename: string, lines: seq<string>)
    requires FromName(filename).Ok? && ReadHeader(FromName(filename).value, lines).Ok?
    requires AllOk(BlockResults(Rest(lines), |Rest(lines)|)).Ok?
    requires |Markers(Rest(lines), |Rest(lines)|)| != ReadHeader(FromName(filename).value, lines).value.repetitions
    ensures FileSpec(filename, lines)
         == Err(RepetitionsMismatch(ReadHeader(FromName(filename).value, lines).value.repetitions,
                                    |Markers(Rest(lines), |Rest(lines)|)|))
  {
  }

  /** An accepted header agrees with the name it was checked against. */
  lemma HeaderOk(named: Named, lines: seq<string>)
    requires ReadHeader(named, lines).Ok?
    ensures var h := ReadHeader(named, lines).value;
      && h.threads == named.threads && h.duration == named.duration && h.batch == named.batch
      && LastInt(Line(lines, 0)) == Ok(h.threads) && LastInt(Line(lines, 1)) == Ok(h.duration)
      && LastInt(Line(lines, 2)) == Ok(h.repetitions)
      && RawCounts(Line(lines, 3)) == Ok(h.enques) && RawCounts(Line(lines, 4)) == Ok(h.deques)
  {
    var r0, r1, r2 := LastInt(Line(lines, 0)), LastInt(Line(lines, 1)), LastInt(Line(lines, 2));
    var r3, r4 := RawCounts(Line(lines, 3)), RawCounts(Line(lines, 4));
    assert r0.Ok? && r0.value == named.threads;
    assert r1.Ok? && r1.value == named.duration;
    assert r2.Ok? && r3.Ok? && r4.Ok?;
    assert ReadHeader(named, lines).value
        == Header(named.threads, named.duration, named.batch, r2.value, r3.value, r4.value);
  }

  /** An accepted average has a positive repetition count equal to the block count;
      every counter but the maximum, times that count, is the total. */
  lemma AverageOk(filename: string, h: Header, count: nat, t: Block)
    requires Average(filename, h, count, t).Ok?
    ensures var run := Average(filename, h, count, t).value;
            var n := run.repetitions as real;
      && run.threads == h.threads && run.expDuration == h.duration && run.batchsize == h.batch
      && run.repetitions == h.repetitions == count > 0
      && run.enques == h.enques && run.deques == h.deques
      && run.freelistMax == t.freelistMax
      && run.duration * n == t.duration
      && run.enqSucc * n == t.enqSucc as real
      && run.enqFail * n == t.enqFail as real
      && run.deqSucc * n == t.deqSucc as real
      && run.deqFail * n == t.deqFail as real
      && run.freelistInsert * n == t.freelistInsert as real
      && run.casSucc * n == t.casSucc as real
      && run.casFail * n == t.casFail as real
  {
  }

  /** What an accepted log yields: the name agrees with the header, there is one
      block per declared repetition and at least one, the maximum is the largest
      block maximum (or 0), and the run is the average of the block totals (whose
      meaning `AverageOk` states). */
  lemma FileOk(filename: string, lines: seq<string>)
    requires FileSpec(filename, lines).Ok?
    ensures var run := FileSpec(filename, lines).value;
            var rest := Rest(lines);
            var blocks := AllOk(BlockResults(rest, |rest|)).value;
      && FromName(filename).Ok?
      && FromName(filename).value == Named(run.threads, run.expDuration, run.batchsize)
      && LastInt(Line(lines, 0)) == Ok(run.threads) && LastInt(Line(lines, 1)) == Ok(run.expDuration)
      && run.repetitions == |blocks| == |Markers(rest, |rest|)| > 0
      && run.freelistMax >= 0
      && (forall k :: 0 <= k < |blocks| ==> blocks[k].freelistMax <= run.freelistMax)
      && (run.freelistMax == 0 || exists k :: 0 <= k < |blocks| && blocks[k].freelistMax == run.freelistMax)
      && run == Average(filename, ReadHeader(FromName(filename).value, lines).value, |blocks|, Totals(blocks)).value
  {
    var rest := Rest(lines);
    var named := FromName(filename).value;
    var h := ReadHeader(named, lines).value;
    var blocks := AllOk(BlockResults(rest, |rest|)).value;
    assert FileSpec(filename, lines) == Average(filename, h, |blocks|, Totals(blocks));
    HeaderOk(named, lines);
    var total := Totals(blocks);
    var run := Average(filename, h, |blocks|, total).value;
    assert FileSpec(filename, lines).value == run;
    AverageOk(filename, h, |blocks|, total);
    TotalsMax(blocks);
  }

  /** `Stats.__lt__`: runs compare by thread count only. */
  predicate RunLess(a: Run, b: Run)
  {
    a.threads < b.threads
  }

  /** `stats_pattern.sort()`: the same runs, by non-decreasing thread count. */
  function SortRuns(runs: seq<Run>): (r: seq<Run>)
    ensures multiset(r) == multiset(runs)
    ensures forall i, j :: 0 <= i < j < |r| ==> r[i].threads <= r[j].threads
  {
    assert StrictOrder(RunLess);
    var r := Sort(runs, RunLess);
    assert forall i, j :: 0 <= i < j < |r| ==> !RunLess(r[j], r[i]);
    r
  }

  /** The `throughput` property: successful operations per second. */
  function Throughput(run: Run): (t: Result<real, Error>)
    ensures t.Ok? <==> run.duration != 0.0
    ensures t.Err? ==> t.error == ZeroDivisionError
    ensures t.Ok? ==> t.value * run.duration == run.enqSucc + run.deqSucc
  {
    if run.duration == 0.0 then Err(ZeroDivisionError)
    else Ok((run.enqSucc + run.deqSucc) / run.duration)
  }

  /** The `throughput_all` property: all attempted operations per second. */
  function ThroughputAll(run: Run): (t: Result<real, Error>)
    ensures t.Ok? <==> run.duration != 0.0
    ensures t.Err? ==> t.error == ZeroDivisionError
    ensures t.Ok? ==> t.value * run.duration == run.enqSucc + run.enqFail + run.deqSucc + run.deqFail
  {
    if run.duration == 0.0 then Err(ZeroDivisionError)
    else Ok((run.enqSucc + run.enqFail + run.deqSucc + run.deqFail) / run.duration)
  }

  /** The `cas_succ_rate` property: the share of successful CAS attempts, which
      divides by zero when there were none. */
  function CasSuccRate(run: Run): (t: Result<real, Error>)
    ensures t.Ok? <==> run.casSucc + run.casFail != 0.0
    ensures t.Err? ==> t.error == ZeroDivisionError
    ensures t.Ok? ==> t.value * (run.casSucc + run.casFail) == run.casSucc
  {
    var attempts := run.casSucc + run.casFail;
    if attempts == 0.0 then Err(ZeroDivisionError) else Ok(run.casSucc / attempts)
  }

  /** With non-negative counts the success rate is a fraction. */
  lemma CasSuccRateBounds(run: Run)
    requires run.casSucc >= 0.0 && run.casFail >= 0.0 && CasSuccRate(run).Ok?
    ensures 0.0 <= CasSuccRate(run).value <= 1.0
  {
    var attempts := run.casSucc + run.casFail;
    assert CasSuccRate(run).value == run.casSucc / attempts;
    Fraction(run.casSucc, attempts);
  }

  /** A part of a positive whole, divided by the whole, is a fraction. */
  lemma Fraction(part: real, whole: real)
    requires 0.0 <= part <= whole && whole > 0.0
    ensures 0.0 <= part / whole <= 1.0
  {
    var q := part / whole;
    assert q * whole == part;
    assert (1.0 - q) * whole == whole - part;
  }
}
