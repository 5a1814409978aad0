/** src/stats.c: a moving average kept in a ring of `double`s. Values are
    modelled as reals, so the floating-point rounding of the running sum
    and of the final division is not modelled. */
module Stats {
  import opened CTypes
  import opened RingBuffer

  /** Every node holds a value: moving_average_calc dereferences each one. */
  predicate AllWritten(slots: seq<Option<real>>) {
    forall i :: 0 <= i < |slots| ==> slots[i].Some?
  }

  /** The values held by the nodes, in order from the head. */
  function Values(slots: seq<Option<real>>): (vs: seq<real>)
    requires AllWritten(slots)
    ensures |vs| == |slots| && forall i :: 0 <= i < |slots| ==> slots[i] == Some(vs[i])
  {
    seq(|slots|, i requires 0 <= i < |slots| => slots[i].value)
  }

  /** The sum of xs, added from the front as the source's loop does. */
  function Total(xs: seq<real>): real
    decreases |xs|
  {
    if xs == [] then 0.0 else Total(xs[..|xs| - 1]) + xs[|xs| - 1]
  }

  /** The average moving_average_calc reports for a ring with these payloads. */
  function Average(slots: seq<Option<real>>): real
    requires AllWritten(slots) && 0 < |slots|
  {
    Total(Values(slots)) / (|slots| as real)
  }

  lemma {:induction false} TotalAppend(a: seq<real>, b: seq<real>)
    ensures Total(a + b) == Total(a) + Total(b)
    decreases |b|
  {
    if b == [] {
      assert a + b == a;
    } else {
      var k := |b| - 1;
      TotalAppend(a, b[..k]);
      assert (a + b)[..|a + b| - 1] == a + b[..k];
      assert (a + b)[|a + b| - 1] == b[k];
    }
  }

  /** Additions split at any point: the run ys ++ zs is the run ys followed
      by the run zs. */
  lemma {:induction false} AddAllSplit<T>(w: Window<T>, ys: seq<T>, zs: seq<T>)
    requires WellFormed(w)
    ensures AddAll(w, ys + zs) == AddAll(AddAll(w, ys), zs)
    decreases |zs|
  {
    if zs == [] {
      assert ys + zs == ys;
    } else {
      var k := |zs| - 1;
      AddAllSplit(w, ys, zs[..k]);
      assert (ys + zs)[..|ys + zs| - 1] == ys + zs[..k];
      assert (ys + zs)[|ys + zs| - 1] == zs[k];
    }
  }

  /** After exactly `length` additions zs from a cursor p, the ring holds
      all of zs, rotated so that zs[0] sits under p. */
  lemma {:induction false} FullTurnRotates(v: Window<real>, zs: seq<real>)
    requires WellFormed(v) && |zs| == |v.slots|
    ensures AllWritten(AddAll(v, zs).slots)
    ensures Values(AddAll(v, zs).slots) == zs[|zs| - v.pos..] + zs[..|zs| - v.pos]
  {
    var n, p := |zs|, v.pos;
    var r := AddAll(v, zs).slots;
    AddAllRecent(v, zs);
    forall i | 0 <= i < n
      ensures r[i] == Some((zs[n - p..] + zs[..n - p])[i])
    {
      var j := Offset(i, p, n);
      assert r[Wrap(p + j, n)] == Some(zs[j]);
    }
    assert AllWritten(r);
    assert Values(r) == zs[n - p..] + zs[..n - p];
  }

  /** The moving average: once at least `length` values have been pushed,
      every node is written and the average over the ring is the mean of
      the last `length` values pushed, wherever the cursor started. */
  lemma {:induction false} WindowHoldsRecentValues(w: Window<real>, xs: seq<real>)
    requires WellFormed(w) && |xs| >= |w.slots|
    ensures AllWritten(AddAll(w, xs).slots)
    ensures Total(Values(AddAll(w, xs).slots)) == Total(xs[|xs| - |w.slots|..])
    ensures Average(AddAll(w, xs).slots) == Total(xs[|xs| - |w.slots|..]) / (|w.slots| as real)
  {
    var n := |w.slots|;
    var ys, zs := xs[..|xs| - n], xs[|xs| - n..];
    assert xs == ys + zs;
    AddAllSplit(w, ys, zs);
    var v := AddAll(w, ys);
    var r := AddAll(w, xs);
    assert r == AddAll(v, zs);
    FullTurnRotates(v, zs);
    TotalRotation(zs, n - v.pos);
    assert Total(Values(r.slots)) == Total(zs);
    assert Average(r.slots) == Total(zs) / (n as real);
  }

  /** A rotation of the values has the same sum. */
  lemma TotalRotation(zs: seq<real>, c: nat)
    requires c <= |zs|
    ensures Total(zs[c..] + zs[..c]) == Total(zs)
  {
    TotalAppend(zs[c..], zs[..c]);
    TotalAppend(zs[..c], zs[c..]);
    assert zs[..c] + zs[c..] == zs;
  }

  /** moving_average_push: a NULL window gives EINVAL; otherwise the value
      is added to the ring at its cursor. */
  method MovingAveragePush(window: Ring?<real>, value: real) returns (status: Status)
    requires window != null ==> window.Valid()
    modifies window
    ensures window == null ==> status == Err(EINVAL)
    ensures window != null ==>
      && status == Ok
      && window.Valid()
      && window.Contents() == Add(old(window.Contents()), value)
      && window.length == old(window.length)
  {
    if window == null {
      return Err(EINVAL);
    }
    // sizeof(double) bytes are copied into the node
    var freed;
    status, freed := RingAdd(window, Some(value), 8);
  }

  /** moving_average_calc: NULL arguments give EINVAL and *average is not
      written. Otherwise an iterator walks `length` nodes from the head,
      summing their values, and *average receives the sum divided by the
      length. */
  method MovingAverageCalc(window: Ring?<real>, average: Ptr?<real>) returns (status: Status)
    requires window != null ==> window.Valid() && AllWritten(window.slots)
    modifies average
    ensures window == null || average == null ==>
      status == Err(EINVAL) && (average != null ==> unchanged(average))
    ensures window != null && average != null ==>
      status == Ok && average.target == Average(window.slots)
  {
    if window == null || average == null {
      return Err(EINVAL);
    }
    var windowSize := RingLength(window, true);
    var n := windowSize.value;
    var iterPtr := new Ptr<RingIter?<real>>(null);
    status := RingIterInit(iterPtr, window);
    var iter := iterPtr.target;
    var current := new Ptr<Option<real>>(None);
    var result := 0.0;
    ghost var values := Values(window.slots);
    for i := 0 to n
      invariant iter.circle == window && iter.Valid()
      invariant iter.pos == Wrap(i, n)
      invariant result == Total(values[..i])
    {
      status := RingIterWalk(iter, current);
      assert values[..i + 1][..i] == values[..i];
      result := result + current.target.value;
    }
    // `length` walks have brought the iterator back to the head
    assert iter.pos == 0;
    assert values[..n] == values;
    result := result / (n as real);
    status := RingIterDestroy(iterPtr);
    average.target := result;
  }
}
