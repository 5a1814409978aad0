/** tools/plot.py: the benchmark sweep of `speedup_plot` (the grid, the
    `runtime_dict` it fills and the speedup vectors it plots), the tables
    of `runtime_tabulate` and `stdev_tabulate`, and the output-extension
    checks of `speedup_plot` and `main`.

    Running the benchmark is an oracle: `measure(length, processes)` is the
    (mean, standard error) pair the executable reports for that run.
    Measurements are reals. A Python dict is an association list in
    insertion order; an exception is a returned error value. */
module Plot {
  import opened CTypes
  import opened Decimal

  /** The exceptions the modelled code raises. */
  datatype PyError = ValueError(msg: string) | ZeroDivisionError | IndexError | KeyError(key: string)

  // ---------------------------------------------------------------------
  // os.path.splitext (POSIX flavour)

  /** The index of the last c in s, or -1 (str.rfind). */
  function RFind(s: string, c: char): (i: int)
    ensures -1 <= i < |s|
    ensures i >= 0 ==> s[i] == c && forall j :: i < j < |s| ==> s[j] != c
    ensures i == -1 ==> forall j :: 0 <= j < |s| ==> s[j] != c
    decreases |s|
  {
    if s == [] then -1 else if s[|s| - 1] == c then |s| - 1 else RFind(s[..|s| - 1], c)
  }

  /** The extension is the part from the last '.' of the last path
      component on, provided that component has a character other than '.'
      before that dot; otherwise it is empty. */
  function SplitExt(p: string): (r: (string, string))
    ensures r.0 + r.1 == p
    ensures r.1 == [] || (r.1[0] == '.' && forall j :: 1 <= j < |r.1| ==> r.1[j] != '.' && r.1[j] != '/')
    ensures r.1 != [] ==> ExtensionDot(p, |r.0|)
    ensures (exists i :: ExtensionDot(p, i)) ==> r.1 != []
  {
    var sepIndex := RFind(p, '/');
    var dotIndex := RFind(p, '.');
    if dotIndex > sepIndex && exists j :: sepIndex + 1 <= j < dotIndex && p[j] != '.' then
      (p[..dotIndex], p[dotIndex..])
    else
      (p, [])
  }

  /** p[i] is the last '.' of p and of its last path component, and some
      character of that component before it is not a '.': the dot where
      splitext cuts. */
  predicate ExtensionDot(p: string, i: int) {
    && 0 <= i < |p| && p[i] == '.'
    && (forall k :: i < k < |p| ==> p[k] != '.' && p[k] != '/')
    && exists j :: 0 <= j < i && p[j] != '.' && forall m :: j <= m < i ==> p[m] != '/'
  }

  /** splitext leaves a dotfile without an extension. */
  lemma SplitExtDotfile()
    ensures SplitExt(".bashrc") == (".bashrc", "")
  {
    var p := ".bashrc";
    assert RFind(p, '.') == 0 by {
      RFindSkips(p, 1, '.');
    }
    assert !ExtensionDot(p, 0);
  }

  /** splitext cuts a file name at its last dot. */
  lemma SplitExtFileName()
    ensures SplitExt("out/plot.png") == ("out/plot", ".png")
  {
    var p := "out/plot.png";
    RFindSkips(p, 9, '.');
    RFindSkips(p, 4, '/');
    assert p[4] != '.';
    assert p[..8] == "out/plot" && p[8..] == ".png";
  }

  /** A proper extension: a dot followed by at least one character, none
      of them a dot or a path separator. */
  predicate ProperExt(ext: string) {
    |ext| > 1 && ext[0] == '.' && forall j :: 1 <= j < |ext| ==> ext[j] != '.' && ext[j] != '/'
  }

  /** Inserting a character other than '.' or '/' between a root and a
      proper extension keeps the extension: splitext(base + "0" + ext) is
      (base + "0", ext). */
  lemma {:induction false} SplitExtAfterInsert(base: string, c: char, ext: string)
    requires c != '.' && c != '/' && ProperExt(ext)
    ensures SplitExt(base + [c] + ext) == (base + [c], ext)
  {
    var p := base + [c] + ext;
    var n := |base| + 1;
    assert p[n..] == ext;
    assert p[..n] == base + [c];
    RFindSkips(p, n, '/');
    RFindSkips(p, n + 1, '.');
    assert p[n] == '.';
    var sepIndex := RFind(p, '/');
    assert sepIndex < n - 1 || sepIndex == -1 by {
      assert p[n - 1] == c;
    }
    assert p[n - 1] != '.';
  }

  /** When no c occurs at or after index k, the last c lies before k; and
      an occurrence at k - 1 is the last one. */
  lemma {:induction false} RFindSkips(s: string, k: nat, c: char)
    requires k <= |s| && forall j :: k <= j < |s| ==> s[j] != c
    ensures RFind(s, c) < k
    ensures k > 0 && s[k - 1] == c ==> RFind(s, c) == k - 1
  {
  }

  // ---------------------------------------------------------------------
  // The sweep grid

  function Pow2(e: nat): (r: nat)
    ensures r >= 1
  {
    if e == 0 then 1 else 2 * Pow2(e - 1)
  }

  /** Python's range(start, stop, step) for a positive step. */
  function PyRange(start: nat, stop: nat, step: nat): (r: seq<nat>)
    requires step > 0
    ensures forall i :: 0 <= i < |r| ==> r[i] == start + i * step && r[i] < stop
    ensures r != [] <==> start < stop
    ensures r != [] ==> stop <= r[|r| - 1] + step
    decreases stop - start
  {
    if start >= stop then [] else [start] + PyRange(start + step, stop, step)
  }

  /** range(start, stop, step) holds every start + k * step below stop. */
  lemma {:induction false} PyRangeComplete(start: nat, stop: nat, step: nat, k: nat)
    requires step > 0 && start + k * step < stop
    ensures k < |PyRange(start, stop, step)| && PyRange(start, stop, step)[k] == start + k * step
    decreases k
  {
    assert start < stop;
    assert PyRange(start, stop, step) == [start] + PyRange(start + step, stop, step);
    if k > 0 {
      assert (start + step) + (k - 1) * step == start + k * step;
      PyRangeComplete(start + step, stop, step, k - 1);
    }
  }

  /** tuple(2 ** e for e in range(start, stop, step)). */
  function PowersOfTwo(start: nat, stop: nat, step: nat): (r: seq<int>)
    requires step > 0
  {
    var es := PyRange(start, stop, step);
    seq(|es|, i requires 0 <= i < |es| => Pow2(es[i]) as int)
  }

  const PROCESS_RANGE: seq<int> := PowersOfTwo(0, 4, 1)
  const LENGTH_RANGE: seq<int> := PowersOfTwo(9, 16, 2)

  /** The grid speedup_plot sweeps: 1, 2, 4 and 8 processes on arrays of
      2^9, 2^11, 2^13 and 2^15 keys. */
  lemma GridValues()
    ensures PROCESS_RANGE == [1, 2, 4, 8]
    ensures LENGTH_RANGE == [512, 2048, 8192, 32768]
  {
    ProcessGrid();
    LengthGrid();
  }

  lemma ProcessGrid()
    ensures PROCESS_RANGE == [1, 2, 4, 8]
  {
    assert PyRange(0, 4, 1) == [0, 1, 2, 3];
    assert Pow2(3) == 8;
  }

  lemma LengthGrid()
    ensures LENGTH_RANGE == [512, 2048, 8192, 32768]
  {
    assert PyRange(9, 16, 2) == [9, 11, 13, 15];
    assert Pow2(9) == 512;
    assert Pow2(11) == 2048;
    assert Pow2(13) == 8192;
    assert Pow2(15) == 32768;
  }

  /** The lengths grow strictly along the grid. */
  lemma LengthAscending()
    ensures forall i, j :: 0 <= i < j < |LENGTH_RANGE| ==> LENGTH_RANGE[i] < LENGTH_RANGE[j]
  {
    LengthGrid();
  }

  // ---------------------------------------------------------------------
  // runtime_dict

  /** A runtime_dict key (length, process_range). */
  datatype Key = Key(length: int, processes: seq<int>)

  /** The [mean, standard error] list the sweep records for one run. */
  datatype ValPair = ValPair(mean: real, stderr: real)

  type Dict = seq<(Key, seq<ValPair>)>

  function Keys(d: Dict): (ks: seq<Key>)
    ensures |ks| == |d| && forall i :: 0 <= i < |d| ==> ks[i] == d[i].0
  {
    seq(|d|, i requires 0 <= i < |d| => d[i].0)
  }

  predicate UniqueKeys(d: Dict) {
    forall i, j :: 0 <= i < j < |d| ==> d[i].0 != d[j].0
  }

  /** d[key]. */
  function Get(d: Dict, key: Key): seq<ValPair>
    requires key in Keys(d)
    decreases |d|
  {
    if d[0].0 == key then d[0].1 else Get(d[1..], key)
  }

  /** d[key] is the list stored with key. */
  lemma {:induction false} GetAt(d: Dict, j: nat)
    requires UniqueKeys(d) && j < |d|
    ensures Get(d, d[j].0) == d[j].1
    decreases j
  {
    if j > 0 {
      assert d[0].0 != d[j].0;
      assert d[1..][j - 1] == d[j];
      assert d[j].0 in Keys(d[1..]) by {
        assert Keys(d[1..])[j - 1] == d[j].0;
      }
      GetAt(d[1..], j - 1);
    }
  }

  /** d[key].append(v). */
  function AppendAt(d: Dict, key: Key, v: ValPair): (r: Dict)
    ensures |r| == |d| && Keys(r) == Keys(d)
    ensures forall j :: 0 <= j < |d| ==>
      r[j].1 == if d[j].0 == key then d[j].1 + [v] else d[j].1
  {
    seq(|d|, j requires 0 <= j < |d| => if d[j].0 == key then (key, d[j].1 + [v]) else d[j])
  }

  /** After d[key].append(v), d[key] has gained v and every other key's
      list is as it was. */
  lemma AppendAtGet(d: Dict, key: Key, v: ValPair, other: Key)
    requires UniqueKeys(d) && key in Keys(d) && other in Keys(d)
    ensures Get(AppendAt(d, key, v), key) == Get(d, key) + [v]
    ensures other != key ==> Get(AppendAt(d, key, v), other) == Get(d, other)
  {
    var r := AppendAt(d, key, v);
    assert UniqueKeys(r) by {
      assert forall j :: 0 <= j < |d| ==> r[j].0 == Keys(r)[j] == Keys(d)[j] == d[j].0;
    }
    var j :| 0 <= j < |d| && Keys(d)[j] == key;
    var o :| 0 <= o < |d| && Keys(d)[o] == other;
    assert r[j].0 == key && r[o].0 == other by {
      assert Keys(r)[j] == Keys(d)[j] && Keys(r)[o] == Keys(d)[o];
    }
    GetAt(d, j);
    GetAt(r, j);
    GetAt(d, o);
    GetAt(r, o);
  }

  function MeanAt(measure: (int, int) -> ValPair, length: int, processes: int): real {
    measure(length, processes).mean
  }

  /** The measurements of the first k process counts for one length. */
  function Row(measure: (int, int) -> ValPair, length: int, k: nat): (r: seq<ValPair>)
    requires k <= |PROCESS_RANGE|
    ensures |r| == k
  {
    seq(k, q requires 0 <= q < k => measure(length, PROCESS_RANGE[q]))
  }

  /** runtime_dict while the sweep is at length index i, process index k. */
  function Partial(measure: (int, int) -> ValPair, i: nat, k: nat): (d: Dict)
    requires k <= |PROCESS_RANGE|
  {
    seq(|LENGTH_RANGE|, j requires 0 <= j < |LENGTH_RANGE| =>
      (Key(LENGTH_RANGE[j], PROCESS_RANGE),
       if j < i then Row(measure, LENGTH_RANGE[j], |PROCESS_RANGE|)
       else if j == i then Row(measure, LENGTH_RANGE[j], k)
       else []))
  }

  /** The runtime_dict speedup_plot returns: one key per length, in the
      grid's order, each holding one pair per process count. */
  function SweepDict(measure: (int, int) -> ValPair): (d: Dict)
    ensures |d| == |LENGTH_RANGE|
  {
    seq(|LENGTH_RANGE|, j requires 0 <= j < |LENGTH_RANGE| =>
      (Key(LENGTH_RANGE[j], PROCESS_RANGE), Row(measure, LENGTH_RANGE[j], |PROCESS_RANGE|)))
  }

  lemma PartialStep(measure: (int, int) -> ValPair, i: nat, k: nat)
    requires i < |LENGTH_RANGE| && k < |PROCESS_RANGE|
    ensures AppendAt(Partial(measure, i, k), Key(LENGTH_RANGE[i], PROCESS_RANGE), measure(LENGTH_RANGE[i], PROCESS_RANGE[k]))
      == Partial(measure, i, k + 1)
  {
    var a := AppendAt(Partial(measure, i, k), Key(LENGTH_RANGE[i], PROCESS_RANGE), measure(LENGTH_RANGE[i], PROCESS_RANGE[k]));
    var b := Partial(measure, i, k + 1);
    forall j | 0 <= j < |LENGTH_RANGE|
      ensures a[j] == b[j]
    {
      PartialEntryStep(measure, i, k, j);
    }
    assert a == b;
  }

  /** The step of PartialStep at the entry of length index j. */
  lemma PartialEntryStep(measure: (int, int) -> ValPair, i: nat, k: nat, j: nat)
    requires i < |LENGTH_RANGE| && k < |PROCESS_RANGE| && j < |LENGTH_RANGE|
    ensures AppendAt(Partial(measure, i, k), Key(LENGTH_RANGE[i], PROCESS_RANGE), measure(LENGTH_RANGE[i], PROCESS_RANGE[k]))[j]
      == Partial(measure, i, k + 1)[j]
  {
    LengthAscending();
    var key := Key(LENGTH_RANGE[i], PROCESS_RANGE);
    var pj := Partial(measure, i, k)[j];
    if j == i {
      assert pj.0 == key;
      RowStep(measure, LENGTH_RANGE[j], k);
    } else {
      assert LENGTH_RANGE[j] != LENGTH_RANGE[i];
      assert pj.0 != key;
    }
  }


  /** One more run extends a row by its measurement. */
  lemma RowStep(measure: (int, int) -> ValPair, length: int, k: nat)
    requires k < |PROCESS_RANGE|
    ensures Row(measure, length, k) + [measure(length, PROCESS_RANGE[k])] == Row(measure, length, k + 1)
  {
    var r, r' := Row(measure, length, k), Row(measure, length, k + 1);
    forall q | 0 <= q < k + 1
      ensures (r + [measure(length, PROCESS_RANGE[k])])[q] == r'[q]
    {
    }
  }

  /** True when some run with more than one process reports a mean of 0. */
  /** The speedup vector after the first k runs of one length, before the
      first entry is patched: T1 first, then T1 / Tq, each Tq non-zero. */
  predicate SpeedupPrefix(measure: (int, int) -> ValPair, length: int, k: nat, v: seq<real>) {
    && k <= |PROCESS_RANGE| && |v| == k
    && (k > 0 ==> v[0] == MeanAt(measure, length, PROCESS_RANGE[0]))
    && (forall q :: 1 <= q < k ==> MeanAt(measure, length, PROCESS_RANGE[q]) != 0.0)
    && (forall q :: 1 <= q < k ==>
          v[q] == MeanAt(measure, length, PROCESS_RANGE[0]) / MeanAt(measure, length, PROCESS_RANGE[q]))
  }

  /** One run extends the prefix by T1 (the first run) or by T1 / Tk. */
  lemma SpeedupPrefixStep(measure: (int, int) -> ValPair, length: int, k: nat, v: seq<real>, speedup: real)
    requires SpeedupPrefix(measure, length, k, v) && k < |PROCESS_RANGE|
    requires k == 0 ==> speedup == MeanAt(measure, length, PROCESS_RANGE[0])
    requires k > 0 ==> MeanAt(measure, length, PROCESS_RANGE[k]) != 0.0 && speedup == v[0] / MeanAt(measure, length, PROCESS_RANGE[k])
    ensures SpeedupPrefix(measure, length, k + 1, v + [speedup])
  {
    var w := v + [speedup];
    assert forall q :: 0 <= q < k ==> w[q] == v[q];
  }

  predicate RowNonZero(measure: (int, int) -> ValPair, length: int) {
    forall q :: 1 <= q < |PROCESS_RANGE| ==> MeanAt(measure, length, PROCESS_RANGE[q]) != 0.0
  }

  predicate SomeZeroMean(measure: (int, int) -> ValPair) {
    exists j :: 0 <= j < |LENGTH_RANGE| && !RowNonZero(measure, LENGTH_RANGE[j])
  }

  /** The speedup vector plotted for one length: T1 / Tp per process
      count, with the first entry patched to 1.0. */
  function SpeedupVector(measure: (int, int) -> ValPair, length: int): (v: seq<real>)
    requires RowNonZero(measure, length)
    ensures |v| == |PROCESS_RANGE|
  {
    seq(|PROCESS_RANGE|, q requires 0 <= q < |PROCESS_RANGE| =>
      if q == 0 then 1.0
      else MeanAt(measure, length, PROCESS_RANGE[0]) / MeanAt(measure, length, PROCESS_RANGE[q]))
  }

  function Speedups(measure: (int, int) -> ValPair): (vs: seq<seq<real>>)
    requires !SomeZeroMean(measure)
  {
    seq(|LENGTH_RANGE|, j requires 0 <= j < |LENGTH_RANGE| => SpeedupVector(measure, LENGTH_RANGE[j]))
  }

  /** The speedup vectors are normalised to the single-process run: entry 0
      is 1, and entry k times the k-th mean is the one-process mean. */
  lemma SpeedupNormalised(measure: (int, int) -> ValPair, j: nat, q: nat)
    requires !SomeZeroMean(measure) && j < |LENGTH_RANGE| && q < |PROCESS_RANGE|
    ensures q == 0 ==> Speedups(measure)[j][q] == 1.0
    ensures q > 0 ==>
      Speedups(measure)[j][q] * MeanAt(measure, LENGTH_RANGE[j], PROCESS_RANGE[q]) == MeanAt(measure, LENGTH_RANGE[j], PROCESS_RANGE[0])
  {
    assert RowNonZero(measure, LENGTH_RANGE[j]);
  }

  datatype SpeedupOutcome = SpeedupRaised(error: PyError) | SpeedupReturned(runtime: Dict, plotted: seq<seq<real>>)

  const PROGRAM_NOT_FOUND: string := "'program' is not found"
  const MPIEXEC_NOT_FOUND: string := "'mpiexec' is not found"
  const NO_EXTENSION: string := "The output must have a valid file extension"

  /** speedup_plot. `programFound` and `mpiexecFound` are what
      shutil.which reports. A missing program, a missing mpiexec or an
      output path without extension raise ValueError before any run; a
      mean of 0 for a run on more than one process raises
      ZeroDivisionError; otherwise the result is the sweep's runtime_dict
      together with the speedup vectors plotted, one per length. */
  method SpeedupPlot(programFound: bool, mpiexecFound: bool, output: string, measure: (int, int) -> ValPair)
    returns (r: SpeedupOutcome)
    ensures !programFound ==> r == SpeedupRaised(ValueError(PROGRAM_NOT_FOUND))
    ensures programFound && !mpiexecFound ==> r == SpeedupRaised(ValueError(MPIEXEC_NOT_FOUND))
    ensures programFound && mpiexecFound && SplitExt(output).1 == [] ==> r == SpeedupRaised(ValueError(NO_EXTENSION))
    ensures programFound && mpiexecFound && SplitExt(output).1 != [] ==>
      if SomeZeroMean(measure) then r == SpeedupRaised(ZeroDivisionError)
      else r == SpeedupReturned(SweepDict(measure), Speedups(measure))
  {
    if !programFound {
      return SpeedupRaised(ValueError(PROGRAM_NOT_FOUND));
    }
    if !mpiexecFound {
      return SpeedupRaised(ValueError(MPIEXEC_NOT_FOUND));
    }
    var processRange := PROCESS_RANGE;
    var lengthRange := LENGTH_RANGE;
    var runtimeDict: Dict := seq(|lengthRange|, j requires 0 <= j < |lengthRange| => (Key(lengthRange[j], processRange), []));
    var speedupVector: seq<real> := [];
    var extension := SplitExt(output).1;
    if extension == [] {
      return SpeedupRaised(ValueError(NO_EXTENSION));
    }
    var plotted: seq<seq<real>> := [];
    for i := 0 to |lengthRange|
      invariant runtimeDict == Partial(measure, i, 0)
      invariant forall j :: 0 <= j < i ==> RowNonZero(measure, lengthRange[j])
      invariant |plotted| == i
      invariant forall j :: 0 <= j < i ==> plotted[j] == SpeedupVector(measure, lengthRange[j])
    {
      var zero;
      zero, speedupVector, runtimeDict := SweepLength(measure, i, runtimeDict);
      if zero {
        return SpeedupRaised(ZeroDivisionError);
      }
      // the speedup of the single-process run is 1 by definition
      speedupVector := speedupVector[0 := 1.0];
      assert speedupVector == SpeedupVector(measure, lengthRange[i]);
      plotted := plotted + [speedupVector];
      assert Partial(measure, i, |processRange|) == Partial(measure, i + 1, 0);
    }
    assert runtimeDict == SweepDict(measure);
    assert plotted == Speedups(measure);
    return SpeedupReturned(runtimeDict, plotted);
  }

  /** The inner loop of speedup_plot for length index i: one run per
      process count, each recorded in runtime_dict, and the speedup vector
      of T1 followed by T1 / Tp; `zero` when a division by a zero mean
      raises ZeroDivisionError. */
  method SweepLength(measure: (int, int) -> ValPair, i: nat, runtimeDict: Dict)
    returns (zero: bool, speedupVector: seq<real>, d: Dict)
    requires i < |LENGTH_RANGE| && runtimeDict == Partial(measure, i, 0)
    ensures zero <==> !RowNonZero(measure, LENGTH_RANGE[i])
    ensures !zero ==>
      && d == Partial(measure, i, |PROCESS_RANGE|)
      && |speedupVector| == |PROCESS_RANGE|
      && speedupVector[0] == MeanAt(measure, LENGTH_RANGE[i], PROCESS_RANGE[0])
      && forall q :: 1 <= q < |PROCESS_RANGE| ==>
           speedupVector[q] == MeanAt(measure, LENGTH_RANGE[i], PROCESS_RANGE[0]) / MeanAt(measure, LENGTH_RANGE[i], PROCESS_RANGE[q])
  {
    ProcessGrid();
    var processRange := PROCESS_RANGE;
    var length := LENGTH_RANGE[i];
    d := runtimeDict;
    speedupVector := [];
    for k := 0 to |processRange|
      invariant d == Partial(measure, i, k)
      invariant SpeedupPrefix(measure, length, k, speedupVector)
    {
      var processCount := processRange[k];
      var m := measure(length, processCount);
      var speedup: real;
      if 1 != processCount {
        if m.mean == 0.0 {
          assert MeanAt(measure, length, processRange[k]) == 0.0;
          return true, speedupVector, d;
        }
        assert k != 0;
        speedup := speedupVector[0] / m.mean;
      } else {
        assert k == 0;
        speedup := m.mean;
      }
      SpeedupPrefixStep(measure, length, k, speedupVector, speedup);
      speedupVector := speedupVector + [speedup];
      PartialStep(measure, i, k);
      d := AppendAt(d, Key(length, processRange), m);
    }
    zero := false;
  }

  // ---------------------------------------------------------------------
  // runtime_tabulate and stdev_tabulate

  /** Python's `<` on sequences of ints: lexicographic, a proper prefix first. */
  predicate SeqLess(a: seq<int>, b: seq<int>)
    decreases |a|
  {
    if a == [] then b != []
    else if b == [] then false
    else if a[0] != b[0] then a[0] < b[0]
    else SeqLess(a[1..], b[1..])
  }

  /** Python's `<` on (length, process_range) tuples. */
  predicate KeyLess(x: Key, y: Key) {
    x.length < y.length || (x.length == y.length && SeqLess(x.processes, y.processes))
  }

  predicate KeyLe(x: Key, y: Key) {
    x == y || KeyLess(x, y)
  }

  lemma {:induction false} SeqLessTotal(a: seq<int>, b: seq<int>)
    ensures a == b || SeqLess(a, b) || SeqLess(b, a)
    decreases |a|
  {
    if a != [] && b != [] && a[0] == b[0] {
      SeqLessTotal(a[1..], b[1..]);
      if a[1..] == b[1..] {
        assert a == [a[0]] + a[1..] && b == [b[0]] + b[1..];
      }
    }
  }

  lemma KeyLeTotal(x: Key, y: Key)
    ensures KeyLe(x, y) || KeyLe(y, x)
  {
    SeqLessTotal(x.processes, y.processes);
  }

  /** Each key is at most the next one. */
  predicate Ascending(s: seq<Key>) {
    forall i :: 0 < i < |s| ==> KeyLe(s[i - 1], s[i])
  }

  function Insert(k: Key, s: seq<Key>): (r: seq<Key>)
    ensures |r| == |s| + 1
    decreases |s|
  {
    if s == [] then [k] else if KeyLe(k, s[0]) then [k] + s else [s[0]] + Insert(k, s[1..])
  }

  /** sorted(keys): the keys in ascending tuple order. */
  function SortKeys(s: seq<Key>): (r: seq<Key>)
    ensures |r| == |s|
    decreases |s|
  {
    if s == [] then [] else Insert(s[0], SortKeys(s[1..]))
  }

  lemma {:induction false} InsertAscending(k: Key, s: seq<Key>)
    requires Ascending(s)
    ensures Ascending(Insert(k, s))
    ensures Insert(k, s)[0] == k || Insert(k, s)[0] == s[0]
    ensures multiset(Insert(k, s)) == multiset(s) + multiset{k}
    decreases |s|
  {
    if s != [] && !KeyLe(k, s[0]) {
      KeyLeTotal(k, s[0]);
      var rest := Insert(k, s[1..]);
      assert Ascending(s[1..]);
      InsertAscending(k, s[1..]);
      assert s == [s[0]] + s[1..];
      assert rest[0] == k || rest[0] == s[1];
      AscendingCons(s[0], rest);
    } else if s != [] {
      assert [k] + s == Insert(k, s);
      AscendingCons(k, s);
    }
  }

  lemma AscendingCons(a: Key, rest: seq<Key>)
    requires Ascending(rest) && (rest != [] ==> KeyLe(a, rest[0]))
    ensures Ascending([a] + rest)
  {
    var s := [a] + rest;
    forall i | 0 < i < |s|
      ensures KeyLe(s[i - 1], s[i])
    {
      if i > 1 {
        assert s[i - 1] == rest[i - 2] && s[i] == rest[i - 1];
      }
    }
  }

  /** sorted() orders the keys ascending and loses or adds none. */
  lemma {:induction false} SortKeysSorted(s: seq<Key>)
    ensures Ascending(SortKeys(s))
    ensures multiset(SortKeys(s)) == multiset(s)
    decreases |s|
  {
    if s != [] {
      SortKeysSorted(s[1..]);
      InsertAscending(s[0], SortKeys(s[1..]));
      assert s == [s[0]] + s[1..];
    }
  }

  /** Keys already in strictly ascending order are left as they are. */
  lemma {:induction false} SortKeysOfAscending(s: seq<Key>)
    requires forall i :: 0 < i < |s| ==> KeyLess(s[i - 1], s[i])
    ensures SortKeys(s) == s
    decreases |s|
  {
    if s != [] {
      SortKeysOfAscending(s[1..]);
      assert s == [s[0]] + s[1..];
    }
  }

  // _log2_exponent_get on float(length)

  const MATH_DOMAIN_ERROR: string := "math domain error"
  const NOT_INTEGER_EXPONENT: string := "The result exponent must be an integer"

  /** n is a power of two. */
  predicate IsPow2(n: int)
    decreases if n > 0 then n else 0
  {
    n == 1 || (n > 1 && n % 2 == 0 && IsPow2(n / 2))
  }

  /** The exponent of a power of two. */
  function Log2(n: int): (e: nat)
    requires IsPow2(n)
    ensures Pow2(e) == n
    decreases if n > 0 then n else 0
  {
    if n == 1 then 0 else 1 + Log2(n / 2)
  }

  lemma {:induction false} Log2OfPow2(e: nat)
    ensures IsPow2(Pow2(e)) && Log2(Pow2(e)) == e
  {
    if e > 0 {
      Log2OfPow2(e - 1);
      assert Pow2(e) / 2 == Pow2(e - 1);
    }
  }

  /** What _log2_exponent_get raises for a length: log2 of a non-positive
      number is a math domain error, and a positive length that is not a
      power of two has a fractional logarithm. */
  function ExponentError(length: int): (r: Option<PyError>)
    ensures r == None <==> IsPow2(length)
  {
    if length <= 0 then Some(ValueError(MATH_DOMAIN_ERROR))
    else if !IsPow2(length) then Some(ValueError(NOT_INTEGER_EXPONENT))
    else None
  }

  /** The label _log2_exponent_get returns for 2^e: TeX for "2^e". */
  function ExponentLabel(length: int): (s: string)
    requires IsPow2(length)
  {
    "$\\mathregular{2^{" + NatToDecimal(Log2(length)) + "}}$"
  }

  /** The label of a length 2^e is the TeX for "2^e", e in decimal. */
  lemma ExponentLabelOfPow2(e: nat)
    ensures IsPow2(Pow2(e))
    ensures ExponentLabel(Pow2(e)) == "$\\mathregular{2^{" + NatToDecimal(e) + "}}$"
  {
    Log2OfPow2(e);
  }

  datatype LabelOutcome = LabelRaised(error: PyError) | Labelled(labels: seq<string>)

  /** [_log2_exponent_get(float(key[0])) for key in keys]: a label per key
      when every length is a power of two, otherwise the error of the first
      key whose length is not. */
  function LengthLabels(keys: seq<Key>): (r: LabelOutcome)
    ensures r.Labelled? <==> forall i :: 0 <= i < |keys| ==> IsPow2(keys[i].length)
    ensures r.Labelled? ==>
      |r.labels| == |keys| && forall i :: 0 <= i < |keys| ==> r.labels[i] == ExponentLabel(keys[i].length)
    ensures r.LabelRaised? ==> exists i :: 0 <= i < |keys| && FirstFailing(keys, i) && ExponentError(keys[i].length) == Some(r.error)
    decreases |keys|
  {
    if keys == [] then Labelled([])
    else match ExponentError(keys[0].length)
      case Some(e) =>
        assert FirstFailing(keys, 0);
        LabelRaised(e)
      case None =>
        var rest := LengthLabels(keys[1..]);
        if rest.LabelRaised? then
          FirstFailingShift(keys, rest.error);
          rest
        else
          Labelled([ExponentLabel(keys[0].length)] + rest.labels)
  }

  /** keys[i] is the first key whose length is not a power of two. */
  predicate FirstFailing(keys: seq<Key>, i: nat) {
    i < |keys| && !IsPow2(keys[i].length) && forall j :: 0 <= j < i ==> IsPow2(keys[j].length)
  }

  lemma FirstFailingShift(keys: seq<Key>, e: PyError)
    requires |keys| > 0 && IsPow2(keys[0].length)
    requires exists i :: 0 <= i < |keys| - 1 && FirstFailing(keys[1..], i) && ExponentError(keys[1..][i].length) == Some(e)
    ensures exists i :: 0 <= i < |keys| && FirstFailing(keys, i) && ExponentError(keys[i].length) == Some(e)
  {
    var i :| 0 <= i < |keys| - 1 && FirstFailing(keys[1..], i) && ExponentError(keys[1..][i].length) == Some(e);
    assert FirstFailing(keys, i + 1);
  }

  /** Which component of each pair a table shows. */
  datatype Component = Mean | Deviation

  function Project(v: ValPair, c: Component): real {
    if c == Mean then v.mean else v.stderr
  }

  /** "N Process" or "N Processes". */
  function ProcessLabel(p: int): string {
    IntToDecimal(p) + " Process" + (if p == 1 then "" else "es")
  }

  /** A column label is the count in decimal followed by the noun, plural
      unless the count is 1. */
  lemma ProcessLabelShape(p: int)
    ensures |ProcessLabel(p)| > |IntToDecimal(p)|
    ensures ProcessLabel(p)[..|IntToDecimal(p)|] == IntToDecimal(p)
    ensures ProcessLabel(p)[|ProcessLabel(p)| - 2..] == "es" <==> p != 1
  {
    var r := ProcessLabel(p);
    assert r[|r| - 2..] == (if p == 1 then "ss" else "es");
  }

  lemma ProcessLabelsOfGrid()
    ensures ProcessLabel(1) == "1 Process"
    ensures ProcessLabel(2) == "2 Processes"
    ensures ProcessLabel(4) == "4 Processes"
    ensures ProcessLabel(8) == "8 Processes"
  {
    assert IntToDecimal(1) == "1";
    assert IntToDecimal(2) == "2";
    assert IntToDecimal(4) == "4";
    assert IntToDecimal(8) == "8";
  }

  /** A table: the key and the label of each row, its cells, and the
      column labels. */
  datatype Table = Table(rowKeys: seq<Key>, rowLabels: seq<string>, cells: seq<seq<real>>, columnLabels: seq<string>)

  datatype TableOutcome = TableRaised(error: PyError) | Tabulated(table: Table)

  /** [j[0] for j in row] (Mean) or [j[-1] for j in row] (Deviation). */
  function ProjectAll(row: seq<ValPair>, c: Component): (r: seq<real>)
    ensures |r| == |row| && forall k :: 0 <= k < |row| ==> r[k] == Project(row[k], c)
  {
    seq(|row|, k requires 0 <= k < |row| => Project(row[k], c))
  }

  /** One column label per process count. */
  function ProcessLabels(processes: seq<int>): (r: seq<string>)
    ensures |r| == |processes| && forall k :: 0 <= k < |processes| ==> r[k] == ProcessLabel(processes[k])
  {
    seq(|processes|, k requires 0 <= k < |processes| => ProcessLabel(processes[k]))
  }

  /** runtime_tabulate (Mean) and stdev_tabulate (Deviation). `pick` stands
      for random.choice: the chosen key is keys[pick % |keys|]. The row
      labels are computed first, so a length that is not a power of two
      raises ValueError; an empty dict then raises IndexError in
      random.choice; otherwise there is one row per key. */
  function Tabulate(d: Dict, pick: nat, c: Component): (r: TableOutcome)
    requires UniqueKeys(d)
    ensures d == [] ==> r == TableRaised(IndexError)
    ensures r.Tabulated? <==> d != [] && forall i :: 0 <= i < |d| ==> IsPow2(d[i].0.length)
    ensures r.TableRaised? && d != [] ==>
      r.error == ValueError(MATH_DOMAIN_ERROR) || r.error == ValueError(NOT_INTEGER_EXPONENT)
    ensures r.Tabulated? ==>
      |r.table.rowKeys| == |r.table.rowLabels| == |r.table.cells| == |d|
  {
    var keys := SortKeys(Keys(d));
    SortKeysMembers(Keys(d));
    var rowLabels := LengthLabels(keys);
    if rowLabels.LabelRaised? then TableRaised(rowLabels.error)
    else if d == [] then TableRaised(IndexError)
    else
      var cells := seq(|keys|, i requires 0 <= i < |keys| => ProjectAll(Get(d, keys[i]), c));
      Tabulated(Table(keys, rowLabels.labels, cells, ProcessLabels(d[pick % |d|].0.processes)))
  }

  /** The rows of a table follow the dict's keys in ascending tuple order,
      every key exactly once, each labelled with the exponent of its
      length; cell (i, k) is the chosen component of the k-th pair stored
      under the i-th key; the column labels name the process counts of the
      key random.choice picked. */
  lemma TabulateRows(d: Dict, pick: nat, c: Component) returns (t: Table)
    requires UniqueKeys(d) && d != [] && forall i :: 0 <= i < |d| ==> IsPow2(d[i].0.length)
    ensures Tabulate(d, pick, c) == Tabulated(t)
    ensures
      && Ascending(t.rowKeys)
      && multiset(t.rowKeys) == multiset(Keys(d))
      && (forall i :: 0 <= i < |t.rowKeys| ==>
            && t.rowKeys[i] in Keys(d)
            && t.rowLabels[i] == ExponentLabel(t.rowKeys[i].length)
            && |t.cells[i]| == |Get(d, t.rowKeys[i])|
            && forall k :: 0 <= k < |t.cells[i]| ==> t.cells[i][k] == Project(Get(d, t.rowKeys[i])[k], c))
      && |t.columnLabels| == |d[pick % |d|].0.processes|
      && forall k :: 0 <= k < |t.columnLabels| ==> t.columnLabels[k] == ProcessLabel(d[pick % |d|].0.processes[k])
  {
    var keys := SortKeys(Keys(d));
    SortKeysSorted(Keys(d));
    SortKeysMembers(Keys(d));
    PowersLabelled(d, keys);
    var labels := LengthLabels(keys);
    var cells := seq(|keys|, i requires 0 <= i < |keys| => ProjectAll(Get(d, keys[i]), c));
    t := Table(keys, labels.labels, cells, ProcessLabels(d[pick % |d|].0.processes));
    assert Tabulate(d, pick, c) == Tabulated(t);
    CellsOfKeys(d, keys, c, cells);
  }

  /** Keys drawn from a dict whose lengths are all powers of two all get a
      label. */
  lemma PowersLabelled(d: Dict, keys: seq<Key>)
    requires forall i :: 0 <= i < |d| ==> IsPow2(d[i].0.length)
    requires forall i :: 0 <= i < |keys| ==> keys[i] in Keys(d)
    ensures LengthLabels(keys).Labelled?
  {
    forall i | 0 <= i < |keys|
      ensures IsPow2(keys[i].length)
    {
      var j := IndexOf(Keys(d), keys[i]);
      assert d[j].0 == keys[i];
    }
  }

  /** A position at which a member of a sequence occurs. */
  lemma {:induction false} IndexOf(s: seq<Key>, x: Key) returns (j: nat)
    requires x in s
    ensures j < |s| && s[j] == x
    decreases |s|
  {
    if s[0] == x {
      j := 0;
    } else {
      assert s == [s[0]] + s[1..];
      var j' := IndexOf(s[1..], x);
      j := j' + 1;
    }
  }

  /** The cells built from the keys hold the chosen component of each
      key's pairs. */
  lemma CellsOfKeys(d: Dict, keys: seq<Key>, c: Component, cells: seq<seq<real>>)
    requires forall i :: 0 <= i < |keys| ==> keys[i] in Keys(d)
    requires cells == seq(|keys|, i requires 0 <= i < |keys| => ProjectAll(Get(d, keys[i]), c))
    ensures forall i :: 0 <= i < |keys| ==>
      && |cells[i]| == |Get(d, keys[i])|
      && forall k :: 0 <= k < |cells[i]| ==> cells[i][k] == Project(Get(d, keys[i])[k], c)
  {
    forall i | 0 <= i < |keys|
      ensures |cells[i]| == |Get(d, keys[i])|
      ensures forall k :: 0 <= k < |cells[i]| ==> cells[i][k] == Project(Get(d, keys[i])[k], c)
    {
      assert cells[i] == ProjectAll(Get(d, keys[i]), c);
    }
  }

  /** A dict holding a length that is not a power of two gives the error
      _log2_exponent_get raises for the first such length in ascending key
      order. */
  lemma TabulateRejects(d: Dict, pick: nat, c: Component) returns (i: nat)
    requires UniqueKeys(d) && exists j :: 0 <= j < |d| && !IsPow2(d[j].0.length)
    ensures Tabulate(d, pick, c).TableRaised?
    ensures FirstFailing(SortKeys(Keys(d)), i)
    ensures ExponentError(SortKeys(Keys(d))[i].length) == Some(Tabulate(d, pick, c).error)
  {
    var keys := SortKeys(Keys(d));
    SortKeysMembers(Keys(d));
    var e := LengthLabels(keys);
    assert e.LabelRaised?;
    i :| 0 <= i < |keys| && FirstFailing(keys, i) && ExponentError(keys[i].length) == Some(e.error);
  }

  /** sorted() keeps exactly the keys it is given. */
  lemma SortKeysMembers(s: seq<Key>)
    ensures forall i :: 0 <= i < |s| ==> SortKeys(s)[i] in s
    ensures forall i :: 0 <= i < |s| ==> s[i] in SortKeys(s)
  {
    SortKeysSorted(s);
    forall i | 0 <= i < |s|
      ensures SortKeys(s)[i] in s && s[i] in SortKeys(s)
    {
      assert SortKeys(s)[i] in multiset(SortKeys(s));
      assert s[i] in multiset(s);
    }
  }

  /** runtime_tabulate. */
  function RuntimeTabulate(d: Dict, pick: nat): TableOutcome
    requires UniqueKeys(d)
  {
    Tabulate(d, pick, Mean)
  }

  /** stdev_tabulate. */
  function StdevTabulate(d: Dict, pick: nat): TableOutcome
    requires UniqueKeys(d)
  {
    Tabulate(d, pick, Deviation)
  }

  /** The error a table of d raises: IndexError for an empty dict, else the
      ValueError of the first length in key order that is not a power of
      two. */
  predicate RaisedFor(d: Dict, e: PyError) {
    (d == [] && e == IndexError)
    || exists i :: 0 <= i < |d| && FirstFailing(SortKeys(Keys(d)), i) && ExponentError(SortKeys(Keys(d))[i].length) == Some(e)
  }

  /** When a table is built, cell (i, k) holds the chosen component of the
      k-th pair stored under the i-th row key; otherwise the error is the
      one RaisedFor names. */
  lemma TabulateOutcome(d: Dict, pick: nat, c: Component)
    requires UniqueKeys(d)
    ensures Tabulate(d, pick, c).Tabulated? <==> d != [] && forall i :: 0 <= i < |d| ==> IsPow2(d[i].0.length)
    ensures Tabulate(d, pick, c).Tabulated? ==> TableCells(d, Tabulate(d, pick, c).table, c)
    ensures Tabulate(d, pick, c).TableRaised? ==> RaisedFor(d, Tabulate(d, pick, c).error)
  {
    if d != [] && forall i :: 0 <= i < |d| ==> IsPow2(d[i].0.length) {
      var t := TabulateRows(d, pick, c);
    } else if d != [] {
      var i := TabulateRejects(d, pick, c);
    }
  }

  /** Every row key of t is a key of d, and the row's cells are the chosen
      component of d[key], in order. */
  predicate TableCells(d: Dict, t: Table, c: Component) {
    && |t.cells| == |t.rowKeys|
    && forall i :: 0 <= i < |t.rowKeys| ==>
      && t.rowKeys[i] in Keys(d)
      && |t.cells[i]| == |Get(d, t.rowKeys[i])|
      && forall k :: 0 <= k < |t.cells[i]| ==> t.cells[i][k] == Project(Get(d, t.rowKeys[i])[k], c)
  }

  /** runtime_tabulate's cells are the means recorded under each key. */
  lemma RuntimeTabulateMeans(d: Dict, pick: nat) returns (r: TableOutcome)
    requires UniqueKeys(d)
    ensures r == RuntimeTabulate(d, pick)
    ensures r.Tabulated? <==> d != [] && forall i :: 0 <= i < |d| ==> IsPow2(d[i].0.length)
    ensures r.Tabulated? ==> |r.table.cells| == |r.table.rowKeys| == |d|
    ensures r.Tabulated? ==>
      forall i :: 0 <= i < |r.table.rowKeys| ==>
        && r.table.rowKeys[i] in Keys(d)
        && |r.table.cells[i]| == |Get(d, r.table.rowKeys[i])|
        && forall k :: 0 <= k < |r.table.cells[i]| ==> r.table.cells[i][k] == Get(d, r.table.rowKeys[i])[k].mean
    ensures r.TableRaised? ==> RaisedFor(d, r.error)
  {
    r := RuntimeTabulate(d, pick);
    TabulateOutcome(d, pick, Mean);
  }

  /** stdev_tabulate's cells are the standard errors recorded under each
      key. */
  lemma StdevTabulateErrors(d: Dict, pick: nat) returns (r: TableOutcome)
    requires UniqueKeys(d)
    ensures r == StdevTabulate(d, pick)
    ensures r.Tabulated? <==> d != [] && forall i :: 0 <= i < |d| ==> IsPow2(d[i].0.length)
    ensures r.Tabulated? ==> |r.table.cells| == |r.table.rowKeys| == |d|
    ensures r.Tabulated? ==>
      forall i :: 0 <= i < |r.table.rowKeys| ==>
        && r.table.rowKeys[i] in Keys(d)
        && |r.table.cells[i]| == |Get(d, r.table.rowKeys[i])|
        && forall k :: 0 <= k < |r.table.cells[i]| ==> r.table.cells[i][k] == Get(d, r.table.rowKeys[i])[k].stderr
    ensures r.TableRaised? ==> RaisedFor(d, r.error)
  {
    r := StdevTabulate(d, pick);
    TabulateOutcome(d, pick, Deviation);
  }

  lemma SweepKeysSorted(measure: (int, int) -> ValPair)
    ensures UniqueKeys(SweepDict(measure))
    ensures SortKeys(Keys(SweepDict(measure))) == Keys(SweepDict(measure))
  {
    var d := SweepDict(measure);
    var keys := Keys(d);
    assert forall j :: 0 <= j < |keys| ==> keys[j] == d[j].0 && d[j].0.length == LENGTH_RANGE[j];
    LengthAscending();
    assert forall i :: 0 < i < |keys| ==> keys[i - 1].length < keys[i].length;
    SortKeysOfAscending(keys);
  }

  lemma SweepLabels(measure: (int, int) -> ValPair, pick: nat)
    ensures var d := SweepDict(measure);
      ProcessLabels(d[pick % |d|].0.processes) == ["1 Process", "2 Processes", "4 Processes", "8 Processes"]
  {
    ProcessGrid();
    var d := SweepDict(measure);
    assert d[pick % |d|].0.processes == [1, 2, 4, 8];
    ProcessLabelsOfGrid();
  }

  /** The sweep's lengths are powers of two, labelled 2^9, 2^11, 2^13 and
      2^15. */
  lemma SweepRowLabels(measure: (int, int) -> ValPair)
    ensures LengthLabels(Keys(SweepDict(measure))) == Labelled(SWEEP_ROW_LABELS)
  {
    var keys := Keys(SweepDict(measure));
    SweepLengthLabels(measure);
    var r := LengthLabels(keys);
    assert r.Labelled?;
    assert r.labels == SWEEP_ROW_LABELS;
  }

  lemma SweepLengthLabels(measure: (int, int) -> ValPair)
    ensures var keys := Keys(SweepDict(measure));
      forall j :: 0 <= j < |keys| ==> IsPow2(keys[j].length) && ExponentLabel(keys[j].length) == SWEEP_ROW_LABELS[j]
  {
    LengthGrid();
    var keys := Keys(SweepDict(measure));
    var es := [9, 11, 13, 15];
    forall j | 0 <= j < |keys|
      ensures IsPow2(keys[j].length) && ExponentLabel(keys[j].length) == SWEEP_ROW_LABELS[j]
    {
      assert keys[j].length == LENGTH_RANGE[j] == Pow2(es[j]);
      Log2OfPow2(es[j]);
      DecimalOfExponent(j, es[j]);
    }
  }

  lemma DecimalOfExponent(j: nat, e: nat)
    requires j < 4 && e == [9, 11, 13, 15][j]
    ensures "$\\mathregular{2^{" + NatToDecimal(e) + "}}$" == SWEEP_ROW_LABELS[j]
  {
    assert NatToDecimal(11) == "11" && NatToDecimal(13) == "13" && NatToDecimal(15) == "15";
  }

  const SWEEP_ROW_LABELS: seq<string> :=
    ["$\\mathregular{2^{9}}$", "$\\mathregular{2^{11}}$", "$\\mathregular{2^{13}}$", "$\\mathregular{2^{15}}$"]

  /** Cell (j, q) of a sweep table: the chosen component of the run on
      the j-th length with the q-th process count. */
  function SweepCells(measure: (int, int) -> ValPair, c: Component): (cells: seq<seq<real>>)
    ensures |cells| == |LENGTH_RANGE|
    ensures forall j :: 0 <= j < |LENGTH_RANGE| ==>
      && |cells[j]| == |PROCESS_RANGE|
      && forall q :: 0 <= q < |PROCESS_RANGE| ==> cells[j][q] == Project(measure(LENGTH_RANGE[j], PROCESS_RANGE[q]), c)
  {
    seq(|LENGTH_RANGE|, j requires 0 <= j < |LENGTH_RANGE| => ProjectAll(Row(measure, LENGTH_RANGE[j], |PROCESS_RANGE|), c))
  }

  lemma SweepTableCells(measure: (int, int) -> ValPair, pick: nat, c: Component)
    requires UniqueKeys(SweepDict(measure))
    requires SortKeys(Keys(SweepDict(measure))) == Keys(SweepDict(measure))
    requires LengthLabels(Keys(SweepDict(measure))).Labelled?
    ensures Tabulate(SweepDict(measure), pick, c).Tabulated?
    ensures Tabulate(SweepDict(measure), pick, c).table.cells == SweepCells(measure, c)
  {
    var d := SweepDict(measure);
    var keys := Keys(d);
    var r := Tabulate(d, pick, c);
    var cells := SweepCells(measure, c);
    assert r.table.rowKeys == keys;
    forall j | 0 <= j < |d|
      ensures r.table.cells[j] == cells[j]
    {
      GetAt(d, j);
    }
  }

  /** The tables of the sweep: row j is length 2^(9+2j), labelled with
      that exponent, column q is
      process count 2^q, labelled "1 Process", "2 Processes", ...; the
      runtime table shows the means and the deviation table the standard
      errors, whichever key random.choice picks. */
  lemma {:induction false} TabulateSweep(measure: (int, int) -> ValPair, pick: nat, c: Component)
    ensures UniqueKeys(SweepDict(measure))
    ensures Tabulate(SweepDict(measure), pick, c) == Tabulated(Table(
      Keys(SweepDict(measure)),
      SWEEP_ROW_LABELS,
      SweepCells(measure, c),
      ["1 Process", "2 Processes", "4 Processes", "8 Processes"]))
  {
    SweepKeysSorted(measure);
    SweepRowLabels(measure);
    SweepLabels(measure, pick);
    SweepTableCells(measure, pick, c);
  }

  // ---------------------------------------------------------------------
  // main: the pie chart file names

  datatype PieOutcome = PieRaised(error: PyError) | PieNames(first: string, second: string)

  /** The message main evidently means to raise for a pie path without a
      proper extension. */
  function PieMessage(pie: string): string {
    "'" + pie + "' must have a proper extension"
  }

  /** main's check of the pie path as written: the message is built with
      str.format on a template whose only field is named `pie` while the
      path is passed positionally, so building it raises KeyError('pie')
      and that exception replaces the intended ValueError. */
  function MainPieAsWritten(pie: string): (r: PieOutcome)
    ensures r.PieRaised? <==> SplitExt(pie).1 == [] || SplitExt(pie).1 == "."
    ensures r.PieRaised? ==> r.error == KeyError("pie")
  {
    var (base, ext) := SplitExt(pie);
    if ext == [] || ext == "." then PieRaised(KeyError("pie"))
    else PieNames(base + "0" + ext, base + "1" + ext)
  }

  /** A pie path with no extension raises KeyError, not the ValueError
      that names the path. */
  lemma MainPieAsWrittenRaisesKeyError()
    ensures MainPieAsWritten("pie") == PieRaised(KeyError("pie"))
    ensures MainPieAsWritten("pie") != PieRaised(ValueError(PieMessage("pie")))
  {
    assert RFind("pie", '.') == -1;
  }

  /** main's check of the pie path with the message built as intended:
      ValueError naming the path when its extension is empty or a lone
      dot; otherwise the two chart names, base + "0" + ext and
      base + "1" + ext. */
  function MainPie(pie: string): (r: PieOutcome)
    ensures r.PieRaised? <==> SplitExt(pie).1 == [] || SplitExt(pie).1 == "."
    ensures r.PieRaised? ==> r.error == ValueError(PieMessage(pie))
  {
    var (base, ext) := SplitExt(pie);
    if ext == [] || ext == "." then PieRaised(ValueError(PieMessage(pie)))
    else PieNames(base + "0" + ext, base + "1" + ext)
  }

  /** The two chart names main derives keep the pie path's extension and
      differ from it only by the digit before the extension. */
  lemma {:induction false} MainPieNamesKeepExtension(pie: string)
    requires MainPie(pie).PieNames?
    ensures SplitExt(MainPie(pie).first) == (SplitExt(pie).0 + "0", SplitExt(pie).1)
    ensures SplitExt(MainPie(pie).second) == (SplitExt(pie).0 + "1", SplitExt(pie).1)
  {
    var (base, ext) := SplitExt(pie);
    assert ProperExt(ext);
    SplitExtAfterInsert(base, '0', ext);
    SplitExtAfterInsert(base, '1', ext);
  }
}
