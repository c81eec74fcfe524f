/** The log-file naming convention of the plotting script: a name
    `<prefix>_<program>_t<threads>_d<duration>_b<batch>_<pattern>.<ext>` for a
    concurrent program and `<prefix>_seq_d<duration>_b<batch>.<ext>` for the
    sequential baseline; the decoders for each field, and the collection of the
    distinct values over all log files. */
module LogNames {
  import opened Wrappers
  import opened Text
  import opened Sorting

  /** What the plotting script can raise while reading a log: the Python exceptions
      `IndexError`, `ValueError` and `ZeroDivisionError`, and its own three
      consistency errors, each carrying the two values that disagree. */
  datatype Error =
    | IndexError
    | ValueError
    | ZeroDivisionError
    | ThreadsMismatch(inName: int, inFile: int)
    | DurationMismatch(inName: int, inFile: int)
    | RepetitionsMismatch(declared: int, found: int)

  /** The program name of the sequential baseline. */
  const SeqProgram := "seq"

  /** Python's `int(s)` on a decimal literal: optional surrounding whitespace, an
      optional sign and at least one digit; anything else is a `ValueError`. */
  function ParseInt(s: string): (r: Result<int, Error>)
    ensures r.Err? ==> r.error == ValueError
    ensures r.Ok? ==> Strip(s) != []
  {
    var t := Strip(s);
    if |t| > 1 && (t[0] == '+' || t[0] == '-') && AllDigits(t[1..]) then
      var v: int := DigitsValue(t[1..]);
      Ok(if t[0] == '-' then -v else v)
    else if t != [] && AllDigits(t) then
      assert t[0..] == t;
      Ok(DigitsValue(t))
    else Err(ValueError)
  }

  /** `int` reads back what `str` wrote. */
  lemma ParseIntShow(n: nat)
    ensures ParseInt(ShowNat(n)) == Ok(n)
  {
    var s := ShowNat(n);
    StripClean(s);
  }

  /** `int` reads back a negative number written with a leading minus sign. */
  lemma ParseIntShowNeg(n: nat)
    ensures ParseInt("-" + ShowNat(n)) == Ok(-(n as int))
  {
    var w := ShowNat(n);
    var s := "-" + w;
    StripClean(s);
    assert s[1..] == w;
  }

  /** Python's `fields[i]`. */
  function Field(fields: seq<string>, i: nat): (r: Result<string, Error>)
    ensures r.Ok? <==> i < |fields|
    ensures r.Ok? ==> r.value == fields[i]
    ensures r.Err? ==> r.error == IndexError
  {
    if i < |fields| then Ok(fields[i]) else Err(IndexError)
  }

  /** Python's `s[1:]`: drops the first character, and is empty for an empty string. */
  function DropFirst(s: string): (r: string)
    ensures |r| == if s == [] then 0 else |s| - 1
    ensures s != [] ==> s == [s[0]] + r
  {
    if s == [] then s else s[1..]
  }

  function Fields(name: string): seq<string>
  {
    Split(name, '_')
  }

  /** `get_program`: the second `_`-separated field. */
  function GetProgram(name: string): Result<string, Error>
  {
    Field(Fields(name), 1)
  }

  /** `get_threads`: 1 for the baseline, otherwise the third field after its marker. */
  function GetThreads(name: string): Result<int, Error>
  {
    var program :- GetProgram(name);
    if program == SeqProgram then Ok(1)
    else
      var f :- Field(Fields(name), 2);
      ParseInt(DropFirst(f))
  }

  /** `get_duration`: the third field for the baseline, the fourth otherwise. */
  function GetDuration(name: string): Result<int, Error>
  {
    var program :- GetProgram(name);
    var f :- Field(Fields(name), if program == SeqProgram then 2 else 3);
    ParseInt(DropFirst(f))
  }

  /** `get_batch`: the baseline's fourth field, cut at its first `.`; otherwise the
      fifth field, not cut. */
  function GetBatch(name: string): Result<int, Error>
  {
    var program :- GetProgram(name);
    if program == SeqProgram then
      var f :- Field(Fields(name), 3);
      ParseInt(Split(DropFirst(f), '.')[0])
    else
      var f :- Field(Fields(name), 4);
      ParseInt(DropFirst(f))
  }

  /** `get_pattern`: empty for the baseline, otherwise the sixth field cut at its first `.`. */
  function GetPattern(name: string): Result<string, Error>
  {
    var program :- GetProgram(name);
    if program == SeqProgram then Ok("")
    else
      var f :- Field(Fields(name), 5);
      Ok(Split(f, '.')[0])
  }

  /** The name of a concurrent program's log. */
  function ConcName(prefix: string, program: string, threads: nat, duration: nat, batch: nat,
                    pattern: string, ext: string): string
  {
    Join([prefix, program, "t" + ShowNat(threads), "d" + ShowNat(duration), "b" + ShowNat(batch),
          pattern + "." + ext], '_')
  }

  /** The name of the sequential baseline's log. */
  function SeqName(prefix: string, duration: nat, batch: nat, ext: string): string
  {
    Join([prefix, SeqProgram, "d" + ShowNat(duration), "b" + ShowNat(batch) + "." + ext], '_')
  }

  lemma NoSepInNumber(marker: char, n: nat, sep: char)
    requires !IsDigit(sep) && marker != sep
    ensures sep !in [marker] + ShowNat(n)
  {
    var s := [marker] + ShowNat(n);
    assert forall k :: 0 < k < |s| ==> s[k] == ShowNat(n)[k - 1];
  }

  /** Every field of a concurrent log's name decodes to what the name was built from. */
  lemma DecodeConcName(prefix: string, program: string, threads: nat, duration: nat, batch: nat,
                       pattern: string, ext: string)
    requires '_' !in prefix && '_' !in program && '_' !in pattern && '_' !in ext
    requires '.' !in pattern && program != SeqProgram
    ensures var name := ConcName(prefix, program, threads, duration, batch, pattern, ext);
      && GetProgram(name) == Ok(program)
      && GetThreads(name) == Ok(threads)
      && GetDuration(name) == Ok(duration)
      && GetBatch(name) == Ok(batch)
      && GetPattern(name) == Ok(pattern)
  {
    var fs := [prefix, program, "t" + ShowNat(threads), "d" + ShowNat(duration), "b" + ShowNat(batch),
               pattern + "." + ext];
    NoSepInNumber('t', threads, '_');
    NoSepInNumber('d', duration, '_');
    NoSepInNumber('b', batch, '_');
    SplitJoin(fs, '_');
    assert DropFirst(fs[2]) == ShowNat(threads);
    assert DropFirst(fs[3]) == ShowNat(duration);
    assert DropFirst(fs[4]) == ShowNat(batch);
    ParseIntShow(threads);
    ParseIntShow(duration);
    ParseIntShow(batch);
    SplitFirst(pattern, '.', ext);
  }

  /** Every field of a baseline log's name decodes to what the name was built from,
      with one thread and an empty pattern. */
  lemma DecodeSeqName(prefix: string, duration: nat, batch: nat, ext: string)
    requires '_' !in prefix && '_' !in ext
    ensures var name := SeqName(prefix, duration, batch, ext);
      && GetProgram(name) == Ok(SeqProgram)
      && GetThreads(name) == Ok(1)
      && GetDuration(name) == Ok(duration)
      && GetBatch(name) == Ok(batch)
      && GetPattern(name) == Ok("")
  {
    var fs := [prefix, SeqProgram, "d" + ShowNat(duration), "b" + ShowNat(batch) + "." + ext];
    NoSepInNumber('d', duration, '_');
    NoSepInNumber('b', batch, '_');
    NoSepInNumber('b', batch, '.');
    assert '_' !in fs[3];
    SplitJoin(fs, '_');
    assert DropFirst(fs[2]) == ShowNat(duration);
    assert DropFirst(fs[3]) == ShowNat(batch) + "." + ext;
    assert '.' !in ShowNat(batch);
    SplitFirst(ShowNat(batch), '.', ext);
    ParseIntShow(duration);
    ParseIntShow(batch);
  }

  /** For the baseline, threads and pattern do not depend on the rest of the name. */
  lemma SeqIgnoresRest(name: string)
    requires GetProgram(name) == Ok(SeqProgram)
    ensures GetThreads(name) == Ok(1) && GetPattern(name) == Ok("")
  {
  }

  /** The batch field of a concurrent log is not cut at a `.`, so an extension left
      on it makes the name undecodable. */
  lemma ConcBatchNotCut(prefix: string, program: string, batch: nat, rest: string)
    requires '_' !in prefix && '_' !in program && '_' !in rest && program != SeqProgram
    ensures GetBatch(Join([prefix, program, "t1", "d1", "b" + ShowNat(batch) + "." + rest], '_')) == Err(ValueError)
  {
    var bf := "b" + ShowNat(batch) + "." + rest;
    NoSepInNumber('b', batch, '_');
    assert '_' !in bf;
    var fs := [prefix, program, "t1", "d1", bf];
    assert '_' !in fs[2] && '_' !in fs[3];
    assert forall i :: 0 <= i < |fs| ==> '_' !in fs[i] by {
      forall i | 0 <= i < |fs| ensures '_' !in fs[i] {
        if i == 0 { assert fs[i] == prefix; }
        else if i == 1 { assert fs[i] == program; }
        else if i == 4 { assert fs[i] == bf; }
      }
    }
    ConcBatchField(fs);
    var t := DropFirst(bf);
    assert t == ShowNat(batch) + "." + rest;
    assert t[|ShowNat(batch)|] == '.';
    ParseIntRejects(t, '.');
  }

  /** The batch of a concurrent name with five fields or more (the sixth, when there
      is one, is the pattern) is its fifth field without the marker. */
  lemma ConcBatchField(fs: seq<string>)
    requires |fs| >= 5 && fs[1] != SeqProgram
    requires forall i :: 0 <= i < |fs| ==> '_' !in fs[i]
    ensures GetBatch(Join(fs, '_')) == ParseInt(DropFirst(fs[4]))
  {
    SplitJoin(fs, '_');
  }

  /** A character that is neither whitespace, a digit nor a sign makes `int()` fail. */
  lemma ParseIntRejects(s: string, c: char)
    requires c in s && !IsSpace(c) && !IsDigit(c) && c != '+' && c != '-'
    ensures ParseInt(s) == Err(ValueError)
  {
    var t := Strip(s);
    assert c in t;
    if |t| > 1 && (t[0] == '+' || t[0] == '-') {
      assert t == [t[0]] + t[1..];
      assert c in t[1..];
    }
  }

  /** The five decoded fields of one log name. */
  datatype Identity = Identity(pattern: string, batch: int, duration: int, program: string, threads: int)

  /** All five decoders, in the order the collection loop calls them; the first
      failure is the result. */
  function Decode(name: string): Result<Identity, Error>
  {
    var pattern :- GetPattern(name);
    var batch :- GetBatch(name);
    var duration :- GetDuration(name);
    var program :- GetProgram(name);
    var threads :- GetThreads(name);
    Ok(Identity(pattern, batch, duration, program, threads))
  }

  predicate IntLess(a: int, b: int)
  {
    a < b
  }

  /** The distinct values found over all log names, each list ascending. */
  datatype Params = Params(
    patterns: seq<string>, batches: seq<int>, durations: seq<int>, programs: seq<string>, threads: seq<int>)

  ghost predicate AscendingStrings(s: seq<string>)
  {
    forall i, j :: 0 <= i < j < |s| ==> LexLess(s[i], s[j])
  }

  ghost predicate AscendingInts(s: seq<int>)
  {
    forall i, j :: 0 <= i < j < |s| ==> s[i] < s[j]
  }

  lemma StringOrder()
    ensures StrictOrder(LexLess)
    ensures forall a, b :: a != b ==> LexLess(a, b) || LexLess(b, a)
  {
    forall a ensures !LexLess(a, a) {
      LexLessIrreflexive(a);
    }
    forall a, b, c | LexLess(a, b) && LexLess(b, c) ensures LexLess(a, c) {
      LexLessTransitive(a, b, c);
    }
    forall a, b | a != b ensures LexLess(a, b) || LexLess(b, a) {
      LexLessTotal(a, b);
    }
  }

  function SortStrings(s: seq<string>): (r: seq<string>)
    requires Distinct(s)
    ensures multiset(r) == multiset(s) && Distinct(r) && AscendingStrings(r)
  {
    StringOrder();
    var r := Sort(s, LexLess);
    SortedDistinctAscending(r, LexLess);
    r
  }

  function SortInts(s: seq<int>): (r: seq<int>)
    requires Distinct(s)
    ensures multiset(r) == multiset(s) && Distinct(r) && AscendingInts(r)
  {
    var r := Sort(s, IntLess);
    SortedDistinctAscending(r, IntLess);
    r
  }

  /** The values of a sequence of results, left to right; the first error, if
      any, is the result. */
  function AllOk<X>(rs: seq<Result<X, Error>>): (r: Result<seq<X>, Error>)
    ensures r.Ok? <==> forall i :: 0 <= i < |rs| ==> rs[i].Ok?
    ensures r.Ok? ==> |r.value| == |rs| && forall i :: 0 <= i < |rs| ==> rs[i] == Ok(r.value[i])
    ensures r.Err? ==> exists i :: 0 <= i < |rs| && rs[i] == Err(r.error)
                                   && forall j :: 0 <= j < i ==> rs[j].Ok?
  {
    if rs == [] then Ok([])
    else
      var init := rs[..|rs| - 1];
      var prev := AllOk(init);
      assert forall i :: 0 <= i < |init| ==> init[i] == rs[i];
      if prev.Err? then
        Err(prev.error)
      else if rs[|rs| - 1].Err? then
        Err(rs[|rs| - 1].error)
      else
        var xs := prev.value + [rs[|rs| - 1].value];
        assert forall i :: 0 <= i < |rs| ==> rs[i] == Ok(xs[i]);
        Ok(xs)
  }

  /** One more result after results that all succeeded: its value is appended, or its
      failure is the failure of them all. */
  lemma AllOkSnoc<X>(rs: seq<Result<X, Error>>, x: Result<X, Error>)
    requires AllOk(rs).Ok?
    ensures AllOk(rs + [x]) == if x.Ok? then Ok(AllOk(rs).value + [x.value]) else Err(x.error)
  {
    assert (rs + [x])[..|rs|] == rs;
  }

  /** A failure in a prefix of the results is the failure of them all. */
  lemma {:induction false} AllOkPrefix<X>(rs: seq<Result<X, Error>>, i: nat)
    requires i <= |rs| && AllOk(rs[..i]).Err?
    ensures AllOk(rs) == AllOk(rs[..i])
    decreases |rs|
  {
    if i < |rs| {
      var init := rs[..|rs| - 1];
      assert init[..i] == rs[..i];
      AllOkPrefix(init, i);
    } else {
      assert rs[..i] == rs;
    }
  }

  /** The decoding of each log name. */
  function Decodes(files: seq<string>): (rs: seq<Result<Identity, Error>>)
    ensures |rs| == |files| && forall i :: 0 <= i < |files| ==> rs[i] == Decode(files[i])
  {
    seq(|files|, i requires 0 <= i < |files| => Decode(files[i]))
  }

  function PatternSet(ids: seq<Identity>): set<string>
  {
    set id | id in ids && id.pattern != "" :: id.pattern
  }

  function BatchSet(ids: seq<Identity>): set<int>
  {
    set id | id in ids :: id.batch
  }

  function DurationSet(ids: seq<Identity>): set<int>
  {
    set id | id in ids :: id.duration
  }

  function ProgramSet(ids: seq<Identity>): set<string>
  {
    set id | id in ids && id.program != SeqProgram :: id.program
  }

  function ThreadSet(ids: seq<Identity>): set<int>
  {
    set id | id in ids :: id.threads
  }

  /** Each list holds, once, exactly the values of its field over the logs:
      non-empty patterns, and programs other than the baseline. */
  ghost predicate Gathered(p: Params, ids: seq<Identity>)
  {
    && Distinct(p.patterns) && (forall x :: x in p.patterns <==> x in PatternSet(ids))
    && Distinct(p.batches) && (forall x :: x in p.batches <==> x in BatchSet(ids))
    && Distinct(p.durations) && (forall x :: x in p.durations <==> x in DurationSet(ids))
    && Distinct(p.programs) && (forall x :: x in p.programs <==> x in ProgramSet(ids))
    && Distinct(p.threads) && (forall x :: x in p.threads <==> x in ThreadSet(ids))
  }

  ghost predicate Ascending(p: Params)
  {
    && AscendingStrings(p.patterns) && AscendingInts(p.batches) && AscendingInts(p.durations)
    && AscendingStrings(p.programs) && AscendingInts(p.threads)
  }

  /** Adds `x` to `xs` unless it is already there. */
  function AddNew<T(==,!new)>(xs: seq<T>, x: T): (ys: seq<T>)
    ensures forall y :: y in ys <==> y in xs || y == x
    ensures Distinct(xs) ==> Distinct(ys)
  {
    if x in xs then xs else xs + [x]
  }

  lemma GatheredStep(p: Params, ids: seq<Identity>, id: Identity)
    requires Gathered(p, ids)
    ensures Gathered(Params(
      if id.pattern != "" then AddNew(p.patterns, id.pattern) else p.patterns,
      AddNew(p.batches, id.batch),
      AddNew(p.durations, id.duration),
      if id.program != SeqProgram then AddNew(p.programs, id.program) else p.programs,
      AddNew(p.threads, id.threads)), ids + [id])
  {
    var ids' := ids + [id];
    assert forall x :: x in ids' <==> x in ids || x == id;
    assert PatternSet(ids') == PatternSet(ids) + (if id.pattern != "" then {id.pattern} else {});
    assert ProgramSet(ids') == ProgramSet(ids) + (if id.program != SeqProgram then {id.program} else {});
    assert BatchSet(ids') == BatchSet(ids) + {id.batch};
    assert DurationSet(ids') == DurationSet(ids) + {id.duration};
    assert ThreadSet(ids') == ThreadSet(ids) + {id.threads};
  }

  lemma SameMembers<T>(a: seq<T>, b: seq<T>)
    requires multiset(a) == multiset(b)
    ensures forall x :: x in a <==> x in b
  {
    forall x ensures x in a <==> x in b {
      assert x in a <==> x in multiset(a);
      assert x in b <==> x in multiset(b);
    }
  }

  /** Sorts every list of the parameters. */
  function SortAll(p: Params, ghost ids: seq<Identity>): (q: Params)
    requires Gathered(p, ids)
    ensures Gathered(q, ids) && Ascending(q)
  {
    var q := Params(SortStrings(p.patterns), SortInts(p.batches), SortInts(p.durations),
                    SortStrings(p.programs), SortInts(p.threads));
    SameMembers(q.patterns, p.patterns);
    SameMembers(q.batches, p.batches);
    SameMembers(q.durations, p.durations);
    SameMembers(q.programs, p.programs);
    SameMembers(q.threads, p.threads);
    q
  }

  /** The collection loop over the log names: every name is decoded, each field's
      new values are appended to its list, and the lists are sorted at the end.
      The first name that fails to decode aborts the loop with its error. */
  method Collect(logfiles: seq<string>) returns (r: Result<Params, Error>)
    ensures AllOk(Decodes(logfiles)).Err? ==> r == Err(AllOk(Decodes(logfiles)).error)
    ensures AllOk(Decodes(logfiles)).Ok? ==> r.Ok? && Gathered(r.value, AllOk(Decodes(logfiles)).value) && Ascending(r.value)
  {
    ghost var rs := Decodes(logfiles);
    var patterns: seq<string> := [];
    var batches: seq<int> := [];
    var durations: seq<int> := [];
    var programs: seq<string> := [];
    var threads: seq<int> := [];
    for i := 0 to |logfiles|
      invariant AllOk(rs[..i]).Ok?
      invariant Gathered(Params(patterns, batches, durations, programs, threads), AllOk(rs[..i]).value)
    {
      assert rs[..i + 1][..i] == rs[..i];
      var decoded := Decode(logfiles[i]);
      assert decoded == rs[i];
      if decoded.Err? {
        AllOkPrefix(rs, i + 1);
        return Err(decoded.error);
      }
      var id := decoded.value;
      GatheredStep(Params(patterns, batches, durations, programs, threads), AllOk(rs[..i]).value, id);
      if id.pattern != "" {
        patterns := AddNew(patterns, id.pattern);
      }
      batches := AddNew(batches, id.batch);
      durations := AddNew(durations, id.duration);
      if id.program != SeqProgram {
        programs := AddNew(programs, id.program);
      }
      threads := AddNew(threads, id.threads);
    }
    assert rs[..|rs|] == rs;
    var p := SortAll(Params(patterns, batches, durations, programs, threads), AllOk(rs).value);
    return Ok(p);
  }
}
