/** The shared queue interface header: the statistics record every benchmark worker
    fills in, the function that combines the per-thread records into one, and the
    queue operations' return codes with their explanations. */
module QueueStats {

  /** Return codes shared by every queue implementation. */
  const QueueOk := 0
  const QueueEmpty := 1
  const QueueNoMem := 2

  /** Counters one thread collects during an experiment. `duration` is in seconds;
      the C `long` counters are modelled as unbounded integers. */
  datatype Stats = Stats(
    duration: real,
    enqSucc: int,
    enqFail: int,
    deqSucc: int,
    deqFail: int,
    freelistInsert: int,
    freelistLen: int,
    freelistMax: int,
    casSucc: int,
    casFail: int)

  /** The zero initialiser `stats s = {0}`. */
  const Zero := Stats(0.0, 0, 0, 0, 0, 0, 0, 0, 0, 0)

  /** The integer counters that `comb_stats` adds up. */
  datatype Counter = EnqSucc | EnqFail | DeqSucc | DeqFail | FreelistInsert | CasSucc | CasFail

  function Get(s: Stats, c: Counter): int
  {
    match c
    case EnqSucc => s.enqSucc
    case EnqFail => s.enqFail
    case DeqSucc => s.deqSucc
    case DeqFail => s.deqFail
    case FreelistInsert => s.freelistInsert
    case CasSucc => s.casSucc
    case CasFail => s.casFail
  }

  /** The sum of counter `c` over all entries. */
  function Sum(ss: seq<Stats>, c: Counter): int
  {
    if ss == [] then 0 else Sum(ss[..|ss| - 1], c) + Get(ss[|ss| - 1], c)
  }

  /** The sum of the entries' durations. */
  function DurationSum(ss: seq<Stats>): real
  {
    if ss == [] then 0.0 else DurationSum(ss[..|ss| - 1]) + ss[|ss| - 1].duration
  }

  /** The largest `freelistMax` of the entries, floored at 0 because the running
      maximum starts from the zero initialiser. */
  function Peak(ss: seq<Stats>): (m: int)
    ensures m >= 0
    ensures forall i :: 0 <= i < |ss| ==> ss[i].freelistMax <= m
    ensures m == 0 || exists i :: 0 <= i < |ss| && ss[i].freelistMax == m
  {
    if ss == [] then 0
    else
      var m' := Peak(ss[..|ss| - 1]);
      assert forall i :: 0 <= i < |ss| - 1 ==> ss[..|ss| - 1][i] == ss[i];
      if ss[|ss| - 1].freelistMax > m' then ss[|ss| - 1].freelistMax else m'
  }

  /** What `comb_stats` computes for a non-empty list of per-thread records: every
      counter summed, the peak freelist length maximised, the duration averaged, and
      `freelistLen` left at 0. */
  function Combined(ss: seq<Stats>): Stats
    requires |ss| > 0
  {
    Stats(
      DurationSum(ss) / (|ss| as real),
      Sum(ss, EnqSucc), Sum(ss, EnqFail), Sum(ss, DeqSucc), Sum(ss, DeqFail),
      Sum(ss, FreelistInsert), 0, Peak(ss), Sum(ss, CasSucc), Sum(ss, CasFail))
  }

  /** Folds the first `len` records of `ss` into one. The array is only read. */
  method CombStats(ss: array<Stats>, len: int) returns (s: Stats)
    requires 0 < len <= ss.Length
    ensures s == Combined(ss[..len])
  {
    s := Zero;
    var total := 0.0;
    for i := 0 to len
      invariant total == DurationSum(ss[..i])
      invariant s.enqSucc == Sum(ss[..i], EnqSucc) && s.enqFail == Sum(ss[..i], EnqFail)
      invariant s.deqSucc == Sum(ss[..i], DeqSucc) && s.deqFail == Sum(ss[..i], DeqFail)
      invariant s.freelistInsert == Sum(ss[..i], FreelistInsert)
      invariant s.casSucc == Sum(ss[..i], CasSucc) && s.casFail == Sum(ss[..i], CasFail)
      invariant s.freelistLen == 0 && s.freelistMax == Peak(ss[..i])
    {
      assert ss[..i + 1][..i] == ss[..i];
      total := total + ss[i].duration;
      s := s.(
        enqSucc := s.enqSucc + ss[i].enqSucc,
        enqFail := s.enqFail + ss[i].enqFail,
        deqSucc := s.deqSucc + ss[i].deqSucc,
        deqFail := s.deqFail + ss[i].deqFail,
        freelistInsert := s.freelistInsert + ss[i].freelistInsert,
        casSucc := s.casSucc + ss[i].casSucc,
        casFail := s.casFail + ss[i].casFail);
      if ss[i].freelistMax > s.freelistMax {
        s := s.(freelistMax := ss[i].freelistMax);
      }
    }
    s := s.(duration := total / (len as real));
  }

  /** Summing over two groups of threads separately and adding gives the sum over all. */
  lemma {:induction false} SumAppend(a: seq<Stats>, b: seq<Stats>, c: Counter)
    ensures Sum(a + b, c) == Sum(a, c) + Sum(b, c)
    decreases |b|
  {
    if b == [] {
      assert a + b == a;
    } else {
      var b' := b[..|b| - 1];
      assert (a + b)[..|a + b| - 1] == a + b';
      SumAppend(a, b', c);
    }
  }

  /** Combining a single record keeps all its counters, forgets its current freelist
      length and floors its peak at 0. */
  lemma CombineOne(s: Stats)
    ensures Combined([s]) == s.(freelistLen := 0, freelistMax := if s.freelistMax > 0 then s.freelistMax else 0)
  {
    assert [s][..0] == [];
    assert DurationSum([s]) == s.duration;
    assert forall c :: Sum([s], c) == Get(s, c);
  }

  /** The combined mean duration lies between the smallest and the largest entry. */
  lemma {:induction false} MeanDurationBounds(ss: seq<Stats>, lo: real, hi: real)
    requires |ss| > 0
    requires forall i :: 0 <= i < |ss| ==> lo <= ss[i].duration <= hi
    ensures lo <= Combined(ss).duration <= hi
  {
    SumBounds(ss, lo, hi);
    assert Combined(ss).duration == DurationSum(ss) / (|ss| as real);
    MeanBetween(DurationSum(ss), |ss| as real, lo, hi);
  }

  /** A total between `n` times two bounds, divided by `n`, lies between them. */
  lemma MeanBetween(total: real, n: real, lo: real, hi: real)
    requires n > 0.0 && lo * n <= total <= hi * n
    ensures lo <= total / n <= hi
  {
    var q := total / n;
    assert q * n == total;
    assert (q - lo) * n == total - lo * n;
    assert (hi - q) * n == hi * n - total;
  }

  lemma {:induction false} SumBounds(ss: seq<Stats>, lo: real, hi: real)
    requires forall i :: 0 <= i < |ss| ==> lo <= ss[i].duration <= hi
    ensures lo * (|ss| as real) <= DurationSum(ss) <= hi * (|ss| as real)
  {
    if ss != [] {
      SumBounds(ss[..|ss| - 1], lo, hi);
    }
  }

  /** Explains a return code; every code outside the three known ones is "Unknown". */
  function QError(code: int): (msg: string)
    ensures msg == "Successful" <==> code == QueueOk
    ensures msg == "Queue empty" <==> code == QueueEmpty
    ensures msg == "Out of memory" <==> code == QueueNoMem
    ensures msg == "Unknown" <==> code !in {QueueOk, QueueEmpty, QueueNoMem}
  {
    if code == QueueOk then "Successful"
    else if code == QueueEmpty then "Queue empty"
    else if code == QueueNoMem then "Out of memory"
    else "Unknown"
  }
}
