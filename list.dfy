/** src/list.c: an append-only singly-linked list of `long`s with a tail
    pointer, copied out in order into a caller's array. The ghost sequence
    `nodes` lists the nodes from the head; allocation always succeeds. */
module LinkedList {
  import opened CTypes

  /** struct node. */
  class Node {
    var val: Long
    var next: Node?

    constructor (val: Long)
      ensures this.val == val && next == null
    {
      this.val := val;
      next := null;
    }
  }

  /** struct list: the element count, the first node and the last node. */
  class List {
    var size: nat
    var head: Node?
    var current: Node?
    ghost var nodes: seq<Node>

    /** The nodes form one chain from `head` to `current`, whose `next` is
        NULL, and `size` counts them. */
    ghost predicate Valid()
      reads this, nodes
    {
      && size == |nodes|
      && (nodes == [] ==> head == null && current == null)
      && (nodes != [] ==> head == nodes[0] && current == nodes[|nodes| - 1] && current.next == null)
      && (forall i :: 0 <= i < |nodes| - 1 ==> nodes[i].next == nodes[i + 1])
      && (forall i, j :: 0 <= i < j < |nodes| ==> nodes[i] != nodes[j])
    }

    /** The values in the list, from the head. */
    ghost function Contents(): seq<Long>
      reads this, nodes
    {
      seq(|nodes|, i reads this, nodes requires 0 <= i < |nodes| => nodes[i].val)
    }

    constructor ()
      ensures Valid() && size == 0 && head == null && current == null && Contents() == []
    {
      size := 0;
      head := null;
      current := null;
      nodes := [];
    }
  }

  /** list_init: a new empty list in *self; a NULL `self` gives EINVAL. */
  method ListInit(self: Ptr?<List?>) returns (status: Status)
    modifies self
    ensures self == null ==> status == Err(EINVAL)
    ensures self != null ==>
      && status == Ok
      && self.target != null && fresh(self.target) && self.target.Valid()
      && self.target.size == 0 && self.target.head == null && self.target.current == null
      && self.target.Contents() == []
  {
    if self == null {
      return Err(EINVAL);
    }
    var temp := new List();
    self.target := temp;
    return Ok;
  }

  /** list_add: a NULL list gives EINVAL and nothing changes. Otherwise a
      new node holding `value` becomes the first node of an empty list, or
      is linked after the last node; it becomes the last node, the head
      stays, and the size grows by one. */
  method ListAdd(self: List?, value: Long) returns (status: Status)
    requires self != null ==> self.Valid()
    modifies self, if self != null then self.current else null
    ensures self == null ==> status == Err(EINVAL)
    ensures self != null ==>
      && status == Ok
      && self.Valid()
      && self.Contents() == old(self.Contents()) + [value]
      && self.size == old(self.size) + 1
      && (old(self.head) == null ==> self.head == self.current)
      && (old(self.head) != null ==> self.head == old(self.head))
      && fresh(self.current) && self.nodes == old(self.nodes) + [self.current]
  {
    if self == null {
      return Err(EINVAL);
    }
    var tempNode := new Node(value);
    if self.head == null {
      self.head := tempNode;
      self.current := tempNode;
    } else {
      self.current.next := tempNode;
      self.current := tempNode;
    }
    self.nodes := self.nodes + [tempNode];
    self.size := self.size + 1;
    ghost var old0 := old(self.Contents());
    assert forall i :: 0 <= i < |old0| ==> self.Contents()[i] == old0[i];
    return Ok;
  }

  /** list_copy: a NULL list gives EINVAL. Otherwise dest[i] receives the
      i-th value added, for each i below the size, and nothing else in the
      array changes. The caller provides room for `size` elements. */
  method ListCopy(self: List?, dest: array?<Long>) returns (status: Status)
    requires self != null ==> self.Valid() && (self.size == 0 || (dest != null && self.size <= dest.Length))
    modifies dest
    ensures self == null ==> status == Err(EINVAL) && (dest != null ==> unchanged(dest))
    ensures self != null ==>
      && status == Ok
      && (self.size > 0 ==> dest[..self.size] == self.Contents())
      && (dest != null ==> dest[self.size..] == old(dest[self.size..]))
  {
    if self == null {
      return Err(EINVAL);
    }
    var tempNode := self.head;
    for i := 0 to self.size
      invariant tempNode == (if i < self.size then self.nodes[i] else null)
      invariant self.size > 0 ==> forall j :: 0 <= j < i ==> dest[j] == self.nodes[j].val
      invariant dest != null ==> dest[self.size..] == old(dest[self.size..])
    {
      dest[i] := tempNode.val;
      tempNode := tempNode.next;
    }
    if self.size > 0 {
      assert dest[..self.size] == self.Contents();
    }
    return Ok;
  }

  /** list_destroy: a NULL `self` gives EINVAL. Otherwise every node is
      freed in order from the head, then the header, and *self becomes
      NULL; `freed` lists what was freed. */
  method ListDestroy(self: Ptr?<List?>) returns (status: Status, freed: seq<object>)
    requires self != null ==> self.target != null && self.target.Valid()
    modifies self, if self != null then self.target else null
    ensures self == null ==> status == Err(EINVAL) && freed == []
    ensures self != null ==>
      && status == Ok
      && self.target == null
      && freed == old(self.target.nodes) + [old(self.target)]
  {
    freed := [];
    if self == null {
      return Err(EINVAL), freed;
    }
    var temp := self.target;
    if temp.head == null {
      freed := [temp];
      self.target := null;
      return Ok, freed;
    }
    ghost var ns := temp.nodes;
    ghost var k := 0;
    while temp.head != null
      invariant 0 <= k <= |ns| && temp.nodes == ns
      invariant temp.head == (if k < |ns| then ns[k] else null)
      invariant freed == ns[..k]
      decreases |ns| - k
    {
      var tempNode := temp.head.next;
      freed := freed + [temp.head];
      temp.head := tempNode;
      k := k + 1;
    }
    assert ns[..|ns|] == ns;
    freed := freed + [temp];
    self.target := null;
    return Ok, freed;
  }
}
