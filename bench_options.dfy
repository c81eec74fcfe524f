/** The benchmark driver's command line: the `getopt` loop over its flags, the
    consistency rules between them, the `min,max` batch-range arguments, the
    per-thread batch lists, the random batch-size formula of the randomised worker,
    the choice of worker, and the repetition loop. */
module BenchOptions {
  import opened Wrappers
  import opened Text

  /** C's `isspace` in the default locale. */
  predicate CIsSpace(c: char)
  {
    c == ' ' || ('\t' <= c <= '\r')
  }

  /** The number of leading whitespace characters. */
  function SpaceRun(s: string): (k: nat)
    ensures k <= |s| && (forall i :: 0 <= i < k ==> CIsSpace(s[i])) && (k < |s| ==> !CIsSpace(s[k]))
  {
    if s != [] && CIsSpace(s[0]) then 1 + SpaceRun(s[1..]) else 0
  }

  /** The number of leading decimal digits. */
  function DigitRun(s: string): (k: nat)
    ensures k <= |s| && AllDigits(s[..k]) && (k < |s| ==> !IsDigit(s[k]))
  {
    if s != [] && IsDigit(s[0]) then
      var k := 1 + DigitRun(s[1..]);
      assert s[..k] == [s[0]] + s[1..][..k - 1];
      k
    else 0
  }

  /** A C `%d` conversion (and `strtol` in base 10): leading whitespace, an optional
      sign and at least one digit. Yields the value and the unread rest, or nothing
      when no digit follows. */
  function ScanInt(s: string): (r: Option<(int, string)>)
    ensures r.Some? ==> |r.value.1| < |s|
  {
    var t := s[SpaceRun(s)..];
    var signed := t != [] && (t[0] == '+' || t[0] == '-');
    var u := if signed then t[1..] else t;
    var k := DigitRun(u);
    if k == 0 then None
    else
      var v: int := DigitsValue(u[..k]);
      Some((if signed && t[0] == '-' then -v else v, u[k..]))
  }

  /** `atoi`: the value `%d` would read, or 0 when there is none. */
  function Atoi(s: string): int
  {
    match ScanInt(s)
    case None => 0
    case Some((v, _)) => v
  }

  /** `%d` reads a number back from its decimal text, stopping at the first non-digit. */
  lemma {:induction false} ScanIntShow(n: nat, rest: string)
    requires rest == [] || !IsDigit(rest[0])
    ensures ScanInt(ShowNat(n) + rest) == Some((n as int, rest))
  {
    var w := ShowNat(n);
    var s := w + rest;
    assert s[0] == w[0] && IsDigit(w[0]);
    assert SpaceRun(s) == 0;
    assert s[0..] == s;
    DigitRunPrefix(w, rest);
    assert s[..|w|] == w;
    assert s[|w|..] == rest;
  }

  /** `%d` reads a negative number back from a minus sign and its digits. */
  lemma ScanIntShowNeg(n: nat, rest: string)
    requires rest == [] || !IsDigit(rest[0])
    ensures ScanInt("-" + ShowNat(n) + rest) == Some((-(n as int), rest))
  {
    var w := ShowNat(n);
    var s := "-" + w + rest;
    assert SpaceRun(s) == 0;
    assert s[0..] == s;
    assert s[1..] == w + rest;
    DigitRunPrefix(w, rest);
    assert (w + rest)[..|w|] == w;
    assert (w + rest)[|w|..] == rest;
  }

  lemma {:induction false} DigitRunPrefix(w: string, rest: string)
    requires AllDigits(w) && (rest == [] || !IsDigit(rest[0]))
    ensures DigitRun(w + rest) == |w|
  {
    if w != [] {
      assert (w + rest)[1..] == w[1..] + rest;
      DigitRunPrefix(w[1..], rest);
    }
  }

  lemma AtoiShow(n: nat)
    ensures Atoi(ShowNat(n)) == n
  {
    ScanIntShow(n, []);
    assert ShowNat(n) + [] == ShowNat(n);
  }

  /** `atoi` reads back a negative number. */
  lemma AtoiShowNeg(n: nat)
    ensures Atoi("-" + ShowNat(n)) == -(n as int)
  {
    ScanIntShowNeg(n, []);
    assert "-" + ShowNat(n) + [] == "-" + ShowNat(n);
  }

  /** `sscanf(arg, "%d,%d", &lo, &hi)`: the first number, then a literal comma, then
      the second; each number is stored only if it and everything before it matched,
      so a failed match leaves the earlier value in place. */
  function ScanPair(arg: string, lo: int, hi: int): (r: (int, int))
    ensures ScanInt(arg).None? ==> r == (lo, hi)
    ensures ScanInt(arg).Some? ==> r.0 == ScanInt(arg).value.0
    ensures ScanInt(arg).Some? ==>
      var rest := ScanInt(arg).value.1;
      if rest != [] && rest[0] == ',' && ScanInt(rest[1..]).Some? then r.1 == ScanInt(rest[1..]).value.0
      else r.1 == hi
  {
    match ScanInt(arg)
    case None => (lo, hi)
    case Some((a, rest)) =>
      if rest != [] && rest[0] == ',' then
        match ScanInt(rest[1..])
        case None => (a, hi)
        case Some((b, _)) => (a, b)
      else (a, hi)
  }

  /** A pair written as `<min>,<max>` reads back as both numbers. */
  lemma ScanPairShow(a: nat, b: nat, lo: int, hi: int)
    ensures ScanPair(ShowNat(a) + "," + ShowNat(b), lo, hi) == (a as int, b as int)
  {
    var s := ShowNat(a) + ("," + ShowNat(b));
    assert ShowNat(a) + "," + ShowNat(b) == s;
    ScanIntShow(a, "," + ShowNat(b));
    assert ("," + ShowNat(b))[1..] == ShowNat(b) + [];
    ScanIntShow(b, []);
  }

  /** One option as `getopt` returns it; a flag it does not know, or one missing its
      argument, comes back as `'?'`. */
  datatype Opt = Opt(flag: char, arg: string)

  /** The flag variables of `main`; the `-E`/`-D` strings are kept only when set. */
  datatype Config = Config(
    threads: int, duration: int, repetition: int, correctness: bool, help: bool,
    ebFlag: bool, ebMin: int, ebMax: int, dbFlag: bool, dbMin: int, dbMax: int,
    eb: Option<string>, db: Option<string>)

  /** The values before any flag: as many threads as OpenMP offers, one second,
      one repetition and batches of 10. */
  function Defaults(maxThreads: int): Config
  {
    Config(maxThreads, 1, 1, false, false, false, 10, 10, false, 10, 10, None, None)
  }

  /** `-e` or `-d`: a range when the argument has a comma, otherwise one value for both ends. */
  function Range(arg: string, lo: int, hi: int): (r: (int, int))
    ensures ',' !in arg ==> r == (Atoi(arg), Atoi(arg))
  {
    if ',' in arg then ScanPair(arg, lo, hi) else (Atoi(arg), Atoi(arg))
  }

  /** One pass of the `switch` in the `getopt` loop. */
  function ApplyOpt(c: Config, o: Opt): Config
  {
    match o.flag
    case 'n' => c.(threads := Atoi(o.arg))
    case 't' => c.(duration := Atoi(o.arg))
    case 'r' => c.(repetition := Atoi(o.arg))
    case 'c' => c.(correctness := true)
    case 'h' => c.(help := true)
    case 'e' =>
      var r := Range(o.arg, c.ebMin, c.ebMax);
      c.(ebFlag := true, ebMin := r.0, ebMax := r.1)
    case 'd' =>
      var r := Range(o.arg, c.dbMin, c.dbMax);
      c.(dbFlag := true, dbMin := r.0, dbMax := r.1)
    case 'E' => c.(eb := Some(o.arg))
    case 'D' => c.(db := Some(o.arg))
    case _ => c.(help := true)
  }

  /** The options applied in order. */
  function ApplyAll(c: Config, opts: seq<Opt>): Config
  {
    if opts == [] then c else ApplyOpt(ApplyAll(c, opts[..|opts| - 1]), opts[|opts| - 1])
  }

  /** The `getopt` loop. */
  method ParseOptions(maxThreads: int, opts: seq<Opt>) returns (c: Config)
    ensures c == ApplyAll(Defaults(maxThreads), opts)
  {
    c := Defaults(maxThreads);
    for i := 0 to |opts|
      invariant c == ApplyAll(Defaults(maxThreads), opts[..i])
    {
      assert opts[..i + 1][..i] == opts[..i];
      c := ApplyOpt(c, opts[i]);
    }
    assert opts[..|opts|] == opts;
  }

  /** A later option overrides what an earlier one of the same flag set. */
  lemma {:induction false} LastRangeWins(c: Config, opts: seq<Opt>, a: nat, b: nat)
    ensures var c' := ApplyAll(c, opts + [Opt('e', ShowNat(a) + "," + ShowNat(b))]);
      c'.ebFlag && c'.ebMin == a && c'.ebMax == b
  {
    var s := ShowNat(a) + "," + ShowNat(b);
    var c0 := ApplyAll(c, opts);
    ApplyAllSnoc(c, opts, Opt('e', s));
    RangeShow(a, b, c0.ebMin, c0.ebMax);
    ApplyEnqueueRange(c0, s);
  }

  /** `-e` sets the flag and both ends of the enqueue range. */
  lemma ApplyEnqueueRange(c: Config, arg: string)
    ensures var c' := ApplyOpt(c, Opt('e', arg));
      c'.ebFlag && (c'.ebMin, c'.ebMax) == Range(arg, c.ebMin, c.ebMax)
  {
  }

  /** Applying one more option is one more pass of the loop. */
  lemma ApplyAllSnoc(c: Config, opts: seq<Opt>, o: Opt)
    ensures ApplyAll(c, opts + [o]) == ApplyOpt(ApplyAll(c, opts), o)
  {
    assert (opts + [o])[..|opts|] == opts;
  }

  /** A range written as `<min>,<max>` sets both ends. */
  lemma RangeShow(a: nat, b: nat, lo: int, hi: int)
    ensures Range(ShowNat(a) + "," + ShowNat(b), lo, hi) == (a as int, b as int)
  {
    var s := ShowNat(a) + "," + ShowNat(b);
    assert s[|ShowNat(a)|] == ',';
    ScanPairShow(a, b, lo, hi);
  }

  /** With no number before the comma `sscanf` assigns nothing, so the range keeps
      its earlier ends; with nothing after it only the lower end changes. */
  lemma RangePartial(lo: int, hi: int, a: nat)
    ensures Range(",5", lo, hi) == (lo, hi)
    ensures Range(ShowNat(a) + ",", lo, hi) == (a as int, hi)
  {
    assert ScanInt(",5").None? by {
      assert SpaceRun(",5") == 0;
      assert DigitRun(",5") == 0;
    }
    ScanIntShow(a, ",");
    var s := ShowNat(a) + ",";
    assert s[|ShowNat(a)|] == ',';
    assert ScanInt([]).None?;
  }

  /** The consistency rules checked after the loop: `-E` and `-D` go together, they
      exclude `-e` and `-d`, and without them each range must not be reversed. */
  predicate NeedsHelp(c: Config)
  {
    || c.help
    || (c.eb.Some? != c.db.Some?)
    || (c.eb.Some? && (c.ebFlag || c.dbFlag))
    || (c.eb.None? && (c.ebMin > c.ebMax || c.dbMin > c.dbMax))
  }

  /** `strtok(s, ",")`: the non-empty pieces between commas. */
  function Tokens(s: string): (ts: seq<string>)
    ensures forall i :: 0 <= i < |ts| ==> ts[i] != [] && ',' !in ts[i]
  {
    NonEmpty(Split(s, ','))
  }

  function NonEmpty(ps: seq<string>): (r: seq<string>)
    ensures forall i :: 0 <= i < |r| ==> r[i] != [] && exists j :: 0 <= j < |ps| && r[i] == ps[j]
    ensures (forall j :: 0 <= j < |ps| ==> ps[j] != []) ==> r == ps
  {
    if ps == [] then []
    else
      var rest := NonEmpty(ps[1..]);
      assert forall i :: 0 <= i < |rest| ==> exists j :: 0 <= j < |ps| && rest[i] == ps[j] by {
        forall i | 0 <= i < |rest| ensures exists j :: 0 <= j < |ps| && rest[i] == ps[j] {
          var j :| 0 <= j < |ps[1..]| && rest[i] == ps[1..][j];
          assert rest[i] == ps[j + 1];
        }
      }
      if ps[0] == [] then rest
      else
        assert ps == [ps[0]] + ps[1..];
        [ps[0]] + rest
  }

  /** Dropping the empty pieces of two lists one after the other. */
  lemma {:induction false} NonEmptyAppend(x: seq<string>, y: seq<string>)
    ensures NonEmpty(x + y) == NonEmpty(x) + NonEmpty(y)
  {
    if x == [] {
      assert x + y == y;
    } else {
      var z := x + y;
      assert z[0] == x[0] && z[1..] == x[1..] + y;
      NonEmptyAppend(x[1..], y);
      if x[0] == [] {
        assert NonEmpty(z) == NonEmpty(z[1..]);
      } else {
        assert NonEmpty(z) == [x[0]] + NonEmpty(z[1..]);
      }
    }
  }

  /** A comma cuts the string in two: the tokens of each side, one after the
      other. Leading, trailing and repeated commas yield no empty tokens. */
  lemma TokensAt(a: string, b: string)
    ensures Tokens(a + [','] + b) == Tokens(a) + Tokens(b)
  {
    SplitAt(a, ',', b);
    NonEmptyAppend(Split(a, ','), Split(b, ','));
  }

  /** The tokens of a comma-joined list are its elements. */
  lemma TokensJoin(ts: seq<string>)
    requires |ts| >= 1 && forall i :: 0 <= i < |ts| ==> ts[i] != [] && ',' !in ts[i]
    ensures Tokens(Join(ts, ',')) == ts
  {
    SplitJoin(ts, ',');
  }

  function AtoiAll(ts: seq<string>): (vs: seq<int>)
    ensures |vs| == |ts| && forall i :: 0 <= i < |ts| ==> vs[i] == Atoi(ts[i])
  {
    seq(|ts|, i requires 0 <= i < |ts| => Atoi(ts[i]))
  }

  /** Reads the `-E` or `-D` list into an array of `threads` batch sizes, one token
      at a time while there are tokens and room; the list is accepted only when it
      filled the array exactly, with no token left over. */
  method ParseBatchList(list: string, threads: nat) returns (ok: bool, batches: seq<int>)
    ensures ok <==> |Tokens(list)| == threads
    ensures ok ==> batches == AtoiAll(Tokens(list))
  {
    var tokens := Tokens(list);
    var a := new int[threads];
    var count := 0;
    while count < |tokens| && count < threads
      invariant count <= |tokens| && count <= threads
      invariant a[..count] == AtoiAll(tokens)[..count]
    {
      a[count] := Atoi(tokens[count]);
      count := count + 1;
    }
    if count != threads || count < |tokens| {
      return false, [];
    }
    assert a[..] == a[..count];
    return true, a[..];
  }

  /** A list of exactly `threads` numbers is accepted and read back. */
  lemma BatchListShow(ns: seq<nat>)
    requires |ns| >= 1
    ensures var ts := seq(|ns|, i requires 0 <= i < |ns| => ShowNat(ns[i]));
      Tokens(Join(ts, ',')) == ts && forall i :: 0 <= i < |ns| ==> AtoiAll(ts)[i] == ns[i]
  {
    var ts := seq(|ns|, i requires 0 <= i < |ns| => ShowNat(ns[i]));
    forall i | 0 <= i < |ns| ensures ts[i] != [] && ',' !in ts[i] && Atoi(ts[i]) == ns[i] {
      var s := ShowNat(ns[i]);
      assert forall k :: 0 <= k < |s| ==> IsDigit(s[k]);
      AtoiShow(ns[i]);
    }
    TokensJoin(ts);
  }

  /** How the worker of an equal experiment picks its batch sizes. */
  datatype Worker = Fixed(eb: int, db: int) | Random(ebMin: int, ebMax: int, dbMin: int, dbMax: int)

  /** `experiment_equal`'s dispatch: fixed batches exactly when both ranges are single values. */
  function ChooseWorker(ebMin: int, ebMax: int, dbMin: int, dbMax: int): (w: Worker)
    ensures w.Fixed? <==> ebMin == ebMax && dbMin == dbMax
    ensures w.Fixed? ==> w.eb == ebMin && w.db == dbMin
  {
    if ebMin == ebMax && dbMin == dbMax then Fixed(ebMin, dbMin) else Random(ebMin, ebMax, dbMin, dbMax)
  }

  /** C's `/`: the quotient truncated toward zero. */
  function CDiv(a: int, b: int): int
    requires b != 0
  {
    var q := (if a < 0 then -a else a) / (if b < 0 then -b else b);
    if (a < 0) != (b < 0) then -q else q
  }

  /** C's `%`: the quotient is truncated toward zero, so the remainder takes the
      sign of the dividend, and `(a / b) * b + a % b == a`. */
  function CRem(a: int, b: int): (r: int)
    requires b != 0
    ensures a >= 0 ==> 0 <= r < (if b < 0 then -b else b)
    ensures a < 0 ==> -(if b < 0 then -b else b) < r <= 0
    ensures CDiv(a, b) * b + r == a
  {
    var m := (if a < 0 then -a else a) % (if b < 0 then -b else b);
    if a < 0 then -m else m
  }

  /** The randomised worker's batch size `min + r % (max - min + 1)` for a random `r`. */
  function ChooseBatch(lo: int, hi: int, r: int): int
    requires hi - lo + 1 != 0
  {
    lo + CRem(r, hi - lo + 1)
  }

  /** With an ordered range and a non-negative random value the batch lies in the range. */
  lemma ChooseBatchInRange(lo: int, hi: int, r: int)
    requires lo <= hi && r >= 0
    ensures lo <= ChooseBatch(lo, hi, r) <= hi
  {
  }

  /** A single-value range gives that value whatever the random value, so the fixed
      worker does what the randomised one would. */
  lemma ChooseBatchSingle(b: int, r: int)
    requires r >= 0
    ensures ChooseBatch(b, b, r) == b
  {
  }

  /** What `main` does once the options are read. */
  datatype Plan =
    | Help
    | Correctness(threads: int, duration: int)
    | AllocFailure
    | ListMismatch(flag: char)
    | Equal(threads: int, duration: int, repetition: int, worker: Worker)
    | Unequal(threads: int, duration: int, repetition: int, ebs: seq<int>, dbs: seq<int>)

  /** The plan `main` follows for the options read into `c`. A negative thread count
      makes the size passed to `malloc` wrap to a huge value, which it cannot serve. */
  function PlanOf(c: Config): Plan
  {
    if NeedsHelp(c) then Help
    else if c.correctness then Correctness(c.threads, c.duration)
    else if c.eb.Some? then
      if c.threads < 0 then AllocFailure
      else if |Tokens(c.eb.value)| != c.threads then ListMismatch('E')
      else if |Tokens(c.db.value)| != c.threads then ListMismatch('D')
      else Unequal(c.threads, c.duration, c.repetition, AtoiAll(Tokens(c.eb.value)), AtoiAll(Tokens(c.db.value)))
    else Equal(c.threads, c.duration, c.repetition, ChooseWorker(c.ebMin, c.ebMax, c.dbMin, c.dbMax))
  }

  /** `main` after the `getopt` loop: the rules, then the correctness check, then
      reading the batch lists. */
  method Prepare(c: Config) returns (p: Plan)
    ensures p == PlanOf(c)
  {
    if NeedsHelp(c) {
      return Help;
    }
    if c.correctness {
      return Correctness(c.threads, c.duration);
    }
    if c.eb.None? {
      return Equal(c.threads, c.duration, c.repetition, ChooseWorker(c.ebMin, c.ebMax, c.dbMin, c.dbMax));
    }
    if c.threads < 0 {
      return AllocFailure;
    }
    var okE, ebs := ParseBatchList(c.eb.value, c.threads);
    if !okE {
      return ListMismatch('E');
    }
    var okD, dbs := ParseBatchList(c.db.value, c.threads);
    if !okD {
      return ListMismatch('D');
    }
    return Unequal(c.threads, c.duration, c.repetition, ebs, dbs);
  }

  /** The rules reject exactly the inconsistent flag sets. */
  lemma HelpRules(c: Config)
    ensures (c.eb.Some? != c.db.Some?) ==> PlanOf(c) == Help
    ensures c.eb.Some? && (c.ebFlag || c.dbFlag) ==> PlanOf(c) == Help
    ensures c.eb.None? && (c.ebMin > c.ebMax || c.dbMin > c.dbMax) ==> PlanOf(c) == Help
    ensures PlanOf(c) == Help ==> NeedsHelp(c)
  {
  }

  /** Every batch size an equal experiment can draw lies in its range, and an unequal
      experiment has one batch size per thread for each direction. */
  lemma PlanBatches(c: Config, r: int)
    requires r >= 0
    ensures PlanOf(c).Equal? && PlanOf(c).worker.Random? ==>
      var w := PlanOf(c).worker;
      w.ebMin <= ChooseBatch(w.ebMin, w.ebMax, r) <= w.ebMax
      && w.dbMin <= ChooseBatch(w.dbMin, w.dbMax, r) <= w.dbMax
    ensures PlanOf(c).Unequal? ==> |PlanOf(c).ebs| == |PlanOf(c).dbs| == PlanOf(c).threads
  {
    if PlanOf(c).Equal? && PlanOf(c).worker.Random? {
      var w := PlanOf(c).worker;
      ChooseBatchInRange(w.ebMin, w.ebMax, r);
      ChooseBatchInRange(w.dbMin, w.dbMax, r);
    }
  }

  /** The repetition loop: experiment `k` returns `codes[k]`; the loop stops after the
      first non-zero code, which `main` then returns. */
  method Repeat(repetition: int, codes: seq<int>) returns (ret: int, runs: nat)
    requires repetition <= |codes|
    ensures runs <= (if repetition < 0 then 0 else repetition)
    ensures forall k :: 0 <= k < runs - 1 ==> codes[k] == 0
    ensures ret == (if runs == 0 then 0 else codes[runs - 1])
    ensures ret != 0 || runs == (if repetition < 0 then 0 else repetition)
  {
    ret, runs := 0, 0;
    var r := 0;
    while r < repetition
      invariant 0 <= r <= (if repetition < 0 then 0 else repetition) && runs == r
      invariant forall k :: 0 <= k < r ==> codes[k] == 0
      invariant ret == 0
    {
      ret := codes[r];
      runs := runs + 1;
      if ret != 0 {
        break;
      }
      r := r + 1;
    }
  }
}
