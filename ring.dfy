/** src/ring.c: a fixed-length circular singly-linked list with a write
    cursor, and an iterator that walks it from the head.

    The nodes of a ring are numbered from the head: node i's payload is
    `slots[i]` (None for a NULL data pointer) and node i's `next` is node
    Next(i, length), so the last node links back to the head. The cursor
    `pos` and an iterator's position are node numbers. Allocation through
    the ring's hooks always succeeds. */
module RingBuffer {
  import opened CTypes

  /** The allocation hooks a ring may be given: the defaults malloc/free, or
      caller-supplied functions told apart by an identifier. */
  datatype Hook = Malloc | Free | Custom(id: nat)

  /** One call of the ring's clean hook while the ring is destroyed: a
      node's payload, then the node itself, and last the ring header. */
  datatype Release<T> = ReleasePayload(data: Option<T>) | ReleaseNode(index: nat) | ReleaseRing

  /** The successor of node i in a ring of n nodes. */
  function Next(i: nat, n: nat): (j: nat)
    requires i < n
    ensures j < n
    ensures j == 0 <==> i == n - 1
  {
    if i + 1 == n then 0 else i + 1
  }

  /** The node reached from node i by following `next` k times. */
  function Advance(i: nat, k: nat, n: nat): (j: nat)
    requires i < n
    ensures j < n
    decreases k
  {
    if k == 0 then i else Next(Advance(i, k - 1, n), n)
  }

  /** a reduced modulo n, for a < 2n: where i + k lands for a node i and k <= n steps. */
  function Wrap(a: nat, n: nat): (r: nat)
    requires a < 2 * n
    ensures r < n
  {
    if a < n then a else a - n
  }

  /** How many steps node i lies after node p. */
  function Offset(i: nat, p: nat, n: nat): (d: nat)
    requires i < n && p < n
    ensures d < n && Wrap(p + d, n) == i
  {
    if i >= p then i - p else i + n - p
  }

  /** Following `next` k <= n times from node i is adding k modulo the
      ring's length. */
  lemma {:induction false} AdvanceWrap(i: nat, k: nat, n: nat)
    requires i < n && k <= n
    ensures Advance(i, k, n) == Wrap(i + k, n)
    decreases k
  {
    if k > 0 {
      AdvanceWrap(i, k - 1, n);
    }
  }

  /** A full turn of `length` steps comes back to the node it started from:
      after `length` additions the cursor is where it began, and `length`
      walks of an iterator return to the head. */
  lemma AdvanceFullTurn(i: nat, n: nat)
    requires i < n
    ensures Advance(i, n, n) == i
  {
    AdvanceWrap(i, n, n);
  }

  /** The payloads and the cursor of a ring. */
  datatype Window<T> = Window(slots: seq<Option<T>>, pos: nat)

  predicate WellFormed<T>(w: Window<T>) {
    0 < |w.slots| && w.pos < |w.slots|
  }

  /** One successful ring_add of x. */
  function Add<T>(w: Window<T>, x: T): (r: Window<T>)
    requires WellFormed(w)
    ensures WellFormed(r) && |r.slots| == |w.slots|
  {
    Window(w.slots[w.pos := Some(x)], Next(w.pos, |w.slots|))
  }

  /** Successful ring_add calls of xs[0], xs[1], ... in turn. */
  function AddAll<T>(w: Window<T>, xs: seq<T>): (r: Window<T>)
    requires WellFormed(w)
    ensures WellFormed(r) && |r.slots| == |w.slots|
    decreases |xs|
  {
    if xs == [] then w else Add(AddAll(w, xs[..|xs| - 1]), xs[|xs| - 1])
  }

  /** After a run of additions the cursor has moved by the run's length
      around the ring. */
  lemma {:induction false} AddAllCursor<T>(w: Window<T>, xs: seq<T>)
    requires WellFormed(w)
    ensures AddAll(w, xs).pos == Advance(w.pos, |xs|, |w.slots|)
    decreases |xs|
  {
    if xs != [] {
      AddAllCursor(w, xs[..|xs| - 1]);
    }
  }

  /** A run of at most `length` additions leaves value xs[j] in the j-th
      node after the starting cursor and leaves every node it did not reach
      as it was. */
  lemma {:induction false} AddAllRecent<T>(w: Window<T>, xs: seq<T>)
    requires WellFormed(w) && |xs| <= |w.slots|
    ensures forall j :: 0 <= j < |xs| ==> AddAll(w, xs).slots[Wrap(w.pos + j, |w.slots|)] == Some(xs[j])
    ensures forall i :: 0 <= i < |w.slots| && Offset(i, w.pos, |w.slots|) >= |xs| ==>
      AddAll(w, xs).slots[i] == w.slots[i]
    decreases |xs|
  {
    var n := |w.slots|;
    if xs != [] {
      var k := |xs| - 1;
      var front := xs[..k];
      AddAllRecent(w, front);
      AddAllCursor(w, front);
      AdvanceWrap(w.pos, k, n);
      var v := AddAll(w, front);
      assert v.pos == Wrap(w.pos + k, n);
      assert AddAll(w, xs) == Add(v, xs[k]);
      forall j | 0 <= j < |xs|
        ensures AddAll(w, xs).slots[Wrap(w.pos + j, n)] == Some(xs[j])
      {
        if j < k {
          assert xs[j] == front[j];
          assert Wrap(w.pos + j, n) != v.pos;
        }
      }
      forall i | 0 <= i < n && Offset(i, w.pos, n) >= |xs|
        ensures AddAll(w, xs).slots[i] == w.slots[i]
      {
        assert i != v.pos;
      }
    }
  }

  /** The objects ring_destroy hands to the clean hook for nodes 0 .. |slots|-1,
      in the order it releases them. */
  function DestroyTrace<T>(slots: seq<Option<T>>): (r: seq<Release<T>>)
    decreases |slots|
  {
    if slots == [] then []
    else DestroyTrace(slots[..|slots| - 1]) + [ReleasePayload(slots[|slots| - 1]), ReleaseNode(|slots| - 1)]
  }

  /** ring_destroy releases every node's payload and then the node itself,
      node after node from the head. */
  lemma {:induction false} DestroyTraceLayout<T>(slots: seq<Option<T>>)
    ensures |DestroyTrace(slots)| == 2 * |slots|
    ensures forall i :: 0 <= i < |slots| ==>
      DestroyTrace(slots)[2 * i] == ReleasePayload(slots[i]) && DestroyTrace(slots)[2 * i + 1] == ReleaseNode(i)
    decreases |slots|
  {
    if slots != [] {
      var k := |slots| - 1;
      var front := slots[..k];
      DestroyTraceLayout(front);
      var t := DestroyTrace(front);
      forall i | 0 <= i < |slots|
        ensures DestroyTrace(slots)[2 * i] == ReleasePayload(slots[i])
        ensures DestroyTrace(slots)[2 * i + 1] == ReleaseNode(i)
      {
        if i < k {
          assert slots[i] == front[i];
          assert DestroyTrace(slots)[2 * i] == t[2 * i];
          assert DestroyTrace(slots)[2 * i + 1] == t[2 * i + 1];
        }
      }
    }
  }

  /** Each node of the ring is released exactly once, no node beyond the
      ring is released, and the header is not among the node releases. */
  lemma {:induction false} DestroyTraceReleasesEachNodeOnce<T>(slots: seq<Option<T>>)
    ensures forall i :: 0 <= i < |slots| ==> multiset(DestroyTrace(slots))[ReleaseNode(i)] == 1
    ensures forall i :: |slots| <= i ==> multiset(DestroyTrace(slots))[ReleaseNode(i)] == 0
    ensures multiset(DestroyTrace(slots))[ReleaseRing] == 0
    decreases |slots|
  {
    if slots != [] {
      var k := |slots| - 1;
      var front := slots[..k];
      DestroyTraceReleasesEachNodeOnce(front);
      var tail := [ReleasePayload(slots[k]), ReleaseNode(k)];
      var m := multiset(DestroyTrace(front));
      var payload, node := multiset{ReleasePayload(slots[k])}, multiset{ReleaseNode(k)};
      assert multiset(tail) == payload + node;
      assert multiset(DestroyTrace(slots)) == m + payload + node;
      forall i | 0 <= i
        ensures multiset(DestroyTrace(slots))[ReleaseNode(i)] == m[ReleaseNode(i)] + (if i == k then 1 else 0)
      {
        assert payload[ReleaseNode(i)] == 0;
        assert node[ReleaseNode(i)] == (if i == k then 1 else 0);
      }
      assert payload[ReleaseRing] == 0 && node[ReleaseRing] == 0;
    }
  }

  /** struct ring: its length field, its hooks, the payloads of its nodes in
      order from the head, and the write cursor. */
  class Ring<T> {
    var length: nat
    var alloc: Hook
    var clean: Hook
    var slots: seq<Option<T>>
    var pos: nat

    /** The structure ring_init builds: `length` nodes, one per slot, the
        cursor on one of them. */
    predicate Valid()
      reads this
    {
      0 < length && |slots| == length && pos < length
    }

    function Contents(): Window<T>
      reads this
    {
      Window(slots, pos)
    }

    /** The header and first node as ring_init sets them up: a single node
        with NULL data, linked to itself, under the cursor. */
    constructor (length: nat, alloc: Hook, clean: Hook)
      ensures this.length == length && this.alloc == alloc && this.clean == clean
      ensures slots == [None] && pos == 0
    {
      this.length := length;
      this.alloc := alloc;
      this.clean := clean;
      slots := [None];
      pos := 0;
    }
  }

  /** struct ring_iter: the ring walked and the node the iterator is on. */
  class RingIter<T> {
    var circle: Ring<T>
    var pos: nat

    predicate Valid()
      reads this, circle
    {
      circle.Valid() && pos < circle.length
    }

    constructor (circle: Ring<T>)
      ensures this.circle == circle && pos == 0
    {
      this.circle := circle;
      pos := 0;
    }
  }

  /** ring_init. A NULL `self` or a zero length is rejected with EINVAL, and
      so is a pair of hooks of which exactly one is given; with neither
      given the ring uses malloc and free. On success *self is a new ring of
      `length` empty nodes with the cursor on the head. */
  method RingInit<T>(self: Ptr?<Ring?<T>>, length: nat, alloc: Option<Hook>, clean: Option<Hook>)
    returns (status: Status)
    modifies self
    ensures self == null || length == 0 ==> status == Err(EINVAL)
    ensures self != null && length > 0 && alloc.Some? != clean.Some? ==>
      status == Err(EINVAL)
    ensures self != null && status.Err? ==> unchanged(self)
    ensures self != null && length > 0 && alloc.Some? == clean.Some? ==>
      && status == Ok
      && self.target != null && fresh(self.target)
      && self.target.Valid()
      && self.target.length == length
      && self.target.slots == seq(length, _ => None)
      && self.target.pos == 0
      && self.target.alloc == (if alloc.Some? then alloc.value else Malloc)
      && self.target.clean == (if clean.Some? then clean.value else Free)
  {
    if self == null || length == 0 {
      return Err(EINVAL);
    }
    var a: Hook, c: Hook;
    if alloc.None? && clean.None? {
      a, c := Malloc, Free;
    } else if alloc.Some? && clean.Some? {
      a, c := alloc.value, clean.value;
    } else {
      return Err(EINVAL);
    }
    var ring := new Ring<T>(length, a, c);
    for i := 1 to length
      invariant |ring.slots| == i && ring.pos == i - 1
      invariant forall j :: 0 <= j < i ==> ring.slots[j] == None
      invariant ring.length == length && ring.alloc == a && ring.clean == c
    {
      // the new node is linked after the cursor, the cursor moves onto it,
      // and its `next` closes the circle back to the head
      ring.slots := ring.slots + [None];
      ring.pos := ring.pos + 1;
    }
    ring.pos := 0;
    self.target := ring;
    return Ok;
  }

  /** ring_add. A NULL ring, NULL data or a zero size is rejected with
      EINVAL and nothing changes. Otherwise the node under the cursor gets a
      copy of the data in place of its old payload, which is returned as
      `freed` because it is handed to the clean hook, and the cursor moves
      to the next node. */
  method RingAdd<T>(self: Ring?<T>, data: Option<T>, size: nat) returns (status: Status, freed: Option<T>)
    requires self != null ==> self.Valid()
    modifies self
    ensures self == null || data.None? || size == 0 ==>
      status == Err(EINVAL) && (self != null ==> unchanged(self))
    ensures self != null && data.Some? && size > 0 ==>
      && status == Ok
      && freed == old(self.slots[self.pos])
      && self.Contents() == Add(old(self.Contents()), data.value)
      && self.length == old(self.length) && self.alloc == old(self.alloc) && self.clean == old(self.clean)
    ensures self != null ==> self.Valid()
  {
    freed := None;
    if self == null || data.None? || size == 0 {
      return Err(EINVAL), freed;
    }
    freed := self.slots[self.pos];
    self.slots := self.slots[self.pos := data];
    self.pos := if self.pos + 1 == self.length then 0 else self.pos + 1;
    return Ok, freed;
  }

  /** ring_length: the stored length, or EINVAL for a NULL ring. (The
      output pointer is the result here, so a NULL one is `lengthGiven`.) */
  method RingLength<T>(self: Ring?<T>, lengthGiven: bool) returns (r: Result<nat>)
    ensures self == null || !lengthGiven ==> r == Failed(EINVAL)
    ensures self != null && lengthGiven ==> r == Written(self.length)
  {
    if self == null || !lengthGiven {
      return Failed(EINVAL);
    }
    return Written(self.length);
  }

  /** ring_destroy. A NULL `self` is rejected with EINVAL. Otherwise every
      node's payload and the node itself go to the clean hook, node by node
      from the head while the length field counts down to 0, then the
      header goes too and *self becomes NULL. */
  method RingDestroy<T>(self: Ptr?<Ring?<T>>) returns (status: Status, released: seq<Release<T>>)
    requires self != null ==> self.target != null && self.target.Valid()
    modifies self
    modifies if self != null then {self.target} else {}
    ensures self == null ==> status == Err(EINVAL) && released == []
    ensures self != null ==>
      && status == Ok
      && self.target == null
      && released == DestroyTrace(old(self.target.slots)) + [ReleaseRing]
  {
    released := [];
    if self == null {
      return Err(EINVAL), released;
    }
    var ring := self.target;
    var n := ring.length;
    var headAddr := 0;
    var head := 0;
    var node := Next(head, n);
    while ring.length != 0
      invariant ring.length <= n && ring.slots == old(ring.slots) && |ring.slots| == n
      invariant n - ring.length < n ==> head == n - ring.length && node == Next(head, n)
      invariant released == DestroyTrace(ring.slots[..n - ring.length])
      decreases ring.length
    {
      ghost var k := n - ring.length;
      // the head node's payload and the node itself are handed to clean
      released := released + [ReleasePayload(ring.slots[head]), ReleaseNode(head)];
      assert ring.slots[..k + 1][..k] == ring.slots[..k];
      if headAddr != node {
        head := node;
        node := Next(head, n);
      }
      ring.length := ring.length - 1;
    }
    assert ring.slots[..n] == ring.slots;
    released := released + [ReleaseRing];
    self.target := null;
    return Ok, released;
  }

  /** ring_iter_init: a new iterator on the head of the ring; NULL
      arguments give EINVAL and store nothing. */
  method RingIterInit<T>(self: Ptr?<RingIter?<T>>, circle: Ring?<T>) returns (status: Status)
    modifies self
    ensures self == null || circle == null ==> status == Err(EINVAL) && (self != null ==> unchanged(self))
    ensures self != null && circle != null ==>
      && status == Ok
      && self.target != null && fresh(self.target)
      && self.target.circle == circle && self.target.pos == 0
  {
    if self == null || circle == null {
      return Err(EINVAL);
    }
    var iter := new RingIter(circle);
    self.target := iter;
    return Ok;
  }

  /** ring_iter_walk: stores the payload of the iterator's node and moves
      the iterator to the next node; NULL arguments give EINVAL and change
      nothing. */
  method RingIterWalk<T>(self: RingIter?<T>, data: Ptr?<Option<T>>) returns (status: Status)
    requires self != null ==> self.Valid()
    modifies self, data
    ensures self == null || data == null ==>
      status == Err(EINVAL) && (self != null ==> unchanged(self)) && (data != null ==> unchanged(data))
    ensures self != null && data != null ==>
      && status == Ok
      && data.target == old(self.circle.slots[self.pos])
      && self.circle == old(self.circle)
      && self.pos == Next(old(self.pos), self.circle.length)
    ensures self != null ==> self.Valid()
  {
    if self == null || data == null {
      return Err(EINVAL);
    }
    data.target := self.circle.slots[self.pos];
    self.pos := Next(self.pos, self.circle.length);
    return Ok;
  }

  /** ring_iter_destroy: releases the iterator and sets *self to NULL; a
      NULL `self` gives EINVAL. */
  method RingIterDestroy<T>(self: Ptr?<RingIter?<T>>) returns (status: Status)
    modifies self
    ensures self == null ==> status == Err(EINVAL)
    ensures self != null ==> status == Ok && self.target == null
  {
    if self == null {
      return Err(EINVAL);
    }
    self.target := null;
    return Ok;
  }
}
