/** src/sort.c: the three-way comparison of two `long`s and the merge of two
    runs of `long`s into an output array. */
module Sort {
  import opened CTypes

  /** long_compare: -1, 0 or 1 as left is below, equal to or above right. */
  function LongCompare(left: Long, right: Long): (r: int)
    ensures r == -1 <==> left < right
    ensures r == 0 <==> left == right
    ensures r == 1 <==> left > right
  {
    if left < right then -1 else if left > right then 1 else 0
  }

  /** long_compare is antisymmetric, as qsort requires of a comparison. */
  lemma LongCompareAntisymmetric(a: Long, b: Long)
    ensures LongCompare(a, b) == -LongCompare(b, a)
  {
  }

  predicate Sorted(s: seq<Long>) {
    forall i, j :: 0 <= i < j < |s| ==> s[i] <= s[j]
  }

  /** The merge array_merge performs, as a function: the smaller head goes
      first, and on equal heads the right run's element does, because the
      comparison is a strict `<`. */
  function Merge(left: seq<Long>, right: seq<Long>): (r: seq<Long>)
    ensures |r| == |left| + |right|
    decreases |left| + |right|
  {
    if left == [] then right
    else if right == [] then left
    else if left[0] < right[0] then [left[0]] + Merge(left[1..], right)
    else [right[0]] + Merge(left, right[1..])
  }

  /** The merge is a permutation of its two runs. */
  lemma {:induction false} MergePermutation(left: seq<Long>, right: seq<Long>)
    ensures multiset(Merge(left, right)) == multiset(left) + multiset(right)
    decreases |left| + |right|
  {
    if left != [] && right != [] {
      if left[0] < right[0] {
        MergePermutation(left[1..], right);
        assert left == [left[0]] + left[1..];
      } else {
        MergePermutation(left, right[1..]);
        assert right == [right[0]] + right[1..];
      }
    }
  }

  /** A merge of runs bounded below by a is bounded below by a. */
  lemma MergeBounded(left: seq<Long>, right: seq<Long>, a: Long)
    requires forall k :: 0 <= k < |left| ==> a <= left[k]
    requires forall k :: 0 <= k < |right| ==> a <= right[k]
    ensures forall k :: 0 <= k < |Merge(left, right)| ==> a <= Merge(left, right)[k]
  {
    var m := Merge(left, right);
    MergePermutation(left, right);
    forall k | 0 <= k < |m|
      ensures a <= m[k]
    {
      assert m[k] in multiset(m);
      assert m[k] in left || m[k] in right;
    }
  }

  lemma SortedCons(a: Long, rest: seq<Long>)
    requires Sorted(rest)
    requires forall k :: 0 <= k < |rest| ==> a <= rest[k]
    ensures Sorted([a] + rest)
  {
    var s := [a] + rest;
    forall i, j | 0 <= i < j < |s|
      ensures s[i] <= s[j]
    {
      if i > 0 {
        assert s[i] == rest[i - 1] && s[j] == rest[j - 1];
      } else {
        assert s[j] == rest[j - 1];
      }
    }
  }

  /** Two sorted runs merge into a sorted run. */
  lemma {:induction false} MergeSorted(left: seq<Long>, right: seq<Long>)
    requires Sorted(left) && Sorted(right)
    ensures Sorted(Merge(left, right))
    decreases |left| + |right|
  {
    if left != [] && right != [] {
      if left[0] < right[0] {
        MergeSorted(left[1..], right);
        MergeBounded(left[1..], right, left[0]);
        SortedCons(left[0], Merge(left[1..], right));
      } else {
        MergeSorted(left, right[1..]);
        MergeBounded(left, right[1..], right[0]);
        SortedCons(right[0], Merge(left, right[1..]));
      }
    }
  }

  /** One step of the main loop taking the left head. */
  lemma MergeTakeLeft(left: seq<Long>, right: seq<Long>, i: nat, j: nat)
    requires i < |left| && j < |right| && left[i] < right[j]
    ensures Merge(left[i..], right[j..]) == [left[i]] + Merge(left[i + 1..], right[j..])
  {
    assert left[i..][1..] == left[i + 1..];
  }

  /** One step of the main loop taking the right head. */
  lemma MergeTakeRight(left: seq<Long>, right: seq<Long>, i: nat, j: nat)
    requires i < |left| && j < |right| && !(left[i] < right[j])
    ensures Merge(left[i..], right[j..]) == [right[j]] + Merge(left[i..], right[j + 1..])
  {
    assert right[j..][1..] == right[j + 1..];
  }

  /** array_merge. A NULL array or an empty run gives EINVAL and writes
      nothing. Otherwise the first lsize + rsize cells of `output` receive
      the merge of left[..lsize] and right[..rsize], and no other cell
      changes. The caller provides distinct arrays, runs of the stated
      sizes and room for both in `output`. */
  method ArrayMerge(output: array?<Long>, left: array?<Long>, lsize: nat, right: array?<Long>, rsize: nat)
    returns (status: Status)
    requires output != null && left != null && right != null && lsize > 0 && rsize > 0 ==>
      && lsize <= left.Length && rsize <= right.Length && lsize + rsize <= output.Length
      && output != left && output != right
    modifies output
    ensures output == null || left == null || right == null || lsize == 0 || rsize == 0 ==>
      status == Err(EINVAL) && (output != null ==> unchanged(output))
    ensures output != null && left != null && right != null && lsize > 0 && rsize > 0 ==>
      && status == Ok
      && output[..lsize + rsize] == Merge(left[..lsize], right[..rsize])
      && output[lsize + rsize..] == old(output[lsize + rsize..])
  {
    if output == null || left == null || right == null || lsize == 0 || rsize == 0 {
      return Err(EINVAL);
    }
    ghost var merged := Merge(left[..lsize], right[..rsize]);
    var lindex, rindex, oindex := MergeHeads(output, left, lsize, right, rsize, merged);
    // what is left of either run follows in order
    if lindex < lsize {
      assert right[rindex..rsize] == [];
      lindex, oindex := AppendRun(output, left, lindex, lsize, oindex, merged);
    } else {
      assert left[lindex..lsize] == [];
    }
    if rindex < rsize {
      rindex, oindex := AppendRun(output, right, rindex, rsize, oindex, merged);
    }
    assert output[..oindex] == merged;
    return Ok;
  }

  /** array_merge's main loop: while both runs have elements, the smaller
      head (the right one on a tie) is copied to the output. It stops with
      one run exhausted, the output holding a prefix of the merge that the
      rest of the two runs completes. */
  method MergeHeads(output: array<Long>, left: array<Long>, lsize: nat, right: array<Long>, rsize: nat, ghost merged: seq<Long>)
    returns (lindex: nat, rindex: nat, oindex: nat)
    requires lsize <= left.Length && rsize <= right.Length && lsize + rsize <= output.Length
    requires output != left && output != right
    requires merged == Merge(left[..lsize], right[..rsize])
    modifies output
    ensures lindex <= lsize && rindex <= rsize && oindex == lindex + rindex
    ensures lindex == lsize || rindex == rsize
    ensures output[..oindex] + Merge(left[lindex..lsize], right[rindex..rsize]) == merged
    ensures output[lsize + rsize..] == old(output[lsize + rsize..])
  {
    ghost var ls, rs := left[..lsize], right[..rsize];
    lindex, rindex, oindex := 0, 0, 0;
    while lindex < lsize && rindex < rsize
      invariant lindex <= lsize && rindex <= rsize && oindex == lindex + rindex
      invariant left[..lsize] == ls && right[..rsize] == rs
      invariant |merged| == lsize + rsize
      invariant output[..oindex] == merged[..oindex]
      invariant Merge(ls[lindex..], rs[rindex..]) == merged[oindex..]
      invariant forall x :: lsize + rsize <= x < output.Length ==> output[x] == old(output[x])
      decreases lsize + rsize - oindex
    {
      if left[lindex] < right[rindex] {
        MergeTakeLeft(ls, rs, lindex, rindex);
        Uncons(merged, oindex, ls[lindex], Merge(ls[lindex + 1..], rs[rindex..]));
        output[oindex] := left[lindex];
        lindex := lindex + 1;
      } else {
        MergeTakeRight(ls, rs, lindex, rindex);
        Uncons(merged, oindex, rs[rindex], Merge(ls[lindex..], rs[rindex + 1..]));
        output[oindex] := right[rindex];
        rindex := rindex + 1;
      }
      oindex := oindex + 1;
    }
    assert ls[lindex..] == left[lindex..lsize] && rs[rindex..] == right[rindex..rsize];
    assert merged == merged[..oindex] + merged[oindex..];
  }

  lemma Uncons(m: seq<Long>, o: nat, a: Long, rest: seq<Long>)
    requires o < |m| && m[o..] == [a] + rest
    ensures m[o] == a && m[o + 1..] == rest
  {
    assert m[o] == m[o..][0];
    assert m[o + 1..] == m[o..][1..];
  }

  /** One of array_merge's closing loops: copies src[index..size] to the
      output from oindex on, completing the merge. */
  method AppendRun(output: array<Long>, src: array<Long>, index: nat, size: nat, oindex: nat, ghost merged: seq<Long>)
    returns (index': nat, oindex': nat)
    requires output != src && index <= size <= src.Length && oindex + (size - index) <= output.Length
    requires output[..oindex] + src[index..size] == merged
    modifies output
    ensures index' == size && oindex' == oindex + (size - index)
    ensures output[..oindex'] == merged
    ensures output[oindex'..] == old(output[oindex'..])
  {
    index', oindex' := index, oindex;
    while index' < size
      invariant index <= index' <= size && oindex' == oindex + (index' - index)
      invariant output[..oindex'] + src[index'..size] == merged
      invariant output[oindex + (size - index)..] == old(output[oindex + (size - index)..])
      decreases size - index'
    {
      ghost var done := output[..oindex'];
      assert src[index'..size] == [src[index']] + src[index' + 1..size];
      output[oindex'] := src[index'];
      assert output[..oindex' + 1] == done + [output[oindex']];
      index', oindex' := index' + 1, oindex' + 1;
    }
    assert src[index'..size] == [];
  }
}
