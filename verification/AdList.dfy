/** The doubly linked list (data_structure/alist/adlist.c) as a sequence of
    values in both directions. */
module AdList {
  import opened Basics

  /** `listNode`; values are pointers, which the list only compares and copies. */
  class Node {
    var prev: Node?
    var next: Node?
    var value: int

    constructor (value: int, prev: Node?, next: Node?)
      ensures this.value == value && this.prev == prev && this.next == next
    {
      this.value, this.prev, this.next := value, prev, next;
    }
  }

  /** Node `i` holds value `i` and is linked to its neighbours. */
  ghost predicate NodeOk(nodes: seq<Node>, vs: seq<int>, i: nat)
    requires i < |nodes| == |vs|
    reads nodes
  {
    && nodes[i].value == vs[i]
    && nodes[i].prev == (if i == 0 then null else nodes[i - 1])
    && nodes[i].next == (if i == |nodes| - 1 then null else nodes[i + 1])
  }

  class List {
    var head: Node?
    var tail: Node?
    var len: nat
    var dup: Option<int -> Option<int>>
    var match_: Option<(int, int) -> bool>
    /** The nodes and their values from head to tail. */
    ghost var Nodes: seq<Node>
    ghost var Values: seq<int>

    ghost predicate Valid()
      reads this, Nodes
    {
      && head == (if Nodes == [] then null else Nodes[0])
      && tail == (if Nodes == [] then null else Nodes[|Nodes| - 1])
      && len == |Nodes| == |Values|
      && (forall i :: 0 <= i < |Nodes| ==> NodeOk(Nodes, Values, i))
      && (forall i, j :: 0 <= i < j < |Nodes| ==> Nodes[i] != Nodes[j])
    }

    /** `listCreate` */
    constructor ()
      ensures Valid() && Nodes == [] && dup == None && match_ == None
    {
      head, tail, len, Nodes, Values, dup, match_ := null, null, 0, [], [], None, None;
    }

    /** `listCreate` with the callbacks of another list. */
    constructor Like(dup: Option<int -> Option<int>>, match_: Option<(int, int) -> bool>)
      ensures Valid() && Nodes == [] && Values == [] && this.dup == dup && this.match_ == match_
    {
      head, tail, len, Nodes, Values := null, null, 0, [], [];
      this.dup, this.match_ := dup, match_;
    }

    /** `listAddNodeHead` */
    method AddHead(value: int)
      requires Valid()
      modifies this`head, this`tail, this`len, this`Nodes, this`Values, Nodes`prev
      ensures Valid() && |Nodes| == |old(Nodes)| + 1 && fresh(Nodes[0]) && Nodes[1..] == old(Nodes)
      ensures Values == [value] + old(Values)
    {
      ghost var nodes, vs := Nodes, Values;
      var node;
      if len == 0 {
        node := new Node(value, null, null);
        head, tail := node, node;
      } else {
        node := new Node(value, null, head);
        head.prev := node;
        head := node;
      }
      len := len + 1;
      Nodes, Values := [node] + nodes, [value] + Values;
      forall i | 0 <= i < |Nodes|
        ensures NodeOk(Nodes, Values, i)
      {
        assert i > 0 ==> old(NodeOk(nodes, vs, i - 1));
      }
    }

    /** `listAddNodeTail` */
    method AddTail(value: int)
      requires Valid()
      modifies this`head, this`tail, this`len, this`Nodes, this`Values, Nodes`next
      ensures Valid() && |Nodes| == |old(Nodes)| + 1 && fresh(Nodes[|Nodes| - 1]) && Nodes[..|Nodes| - 1] == old(Nodes)
      ensures Values == old(Values) + [value]
    {
      ghost var nodes, vs := Nodes, Values;
      var node;
      if len == 0 {
        node := new Node(value, null, null);
        head, tail := node, node;
      } else {
        node := new Node(value, tail, null);
        tail.next := node;
        tail := node;
      }
      len := len + 1;
      Nodes, Values := nodes + [node], Values + [value];
      forall i | 0 <= i < |Nodes|
        ensures NodeOk(Nodes, Values, i)
      {
        assert i < |nodes| ==> old(NodeOk(nodes, vs, i));
      }
    }

    /** The end of `listInsertNode`: a node that knows its neighbours, at `at`, is
        made known to them. */
    method LinkIn(node: Node, ghost at: nat)
      requires |Nodes| == len == |Values| && at <= |Nodes| && node !in Nodes
      requires forall i :: 0 <= i < |Nodes| ==> NodeOk(Nodes, Values, i)
      requires forall i, j :: 0 <= i < j < |Nodes| ==> Nodes[i] != Nodes[j]
      requires node.prev == (if at == 0 then null else Nodes[at - 1])
      requires node.next == (if at == |Nodes| then null else Nodes[at])
      modifies this`len, this`Nodes, this`Values, Nodes`prev, Nodes`next
      ensures Nodes == InsertAt(old(Nodes), at, node) && len == |Nodes|
      ensures Values == InsertAt(old(Values), at, node.value)
      ensures forall i :: 0 <= i < |Nodes| ==> NodeOk(Nodes, Values, i)
    {
      ghost var nodes, vs := Nodes, Values;
      if node.prev != null {
        node.prev.next := node;
      }
      if node.next != null {
        node.next.prev := node;
      }
      len := len + 1;
      Nodes, Values := InsertAt(nodes, at, node), InsertAt(Values, at, node.value);
      forall i | 0 <= i < |Nodes|
        ensures NodeOk(Nodes, Values, i)
      {
        assert i < at ==> old(NodeOk(nodes, vs, i));
        assert i > at ==> old(NodeOk(nodes, vs, i - 1));
      }
    }

    static lemma InsertDistinct(nodes: seq<Node>, at: nat, node: Node)
      requires at <= |nodes| && node !in nodes
      requires forall i, j :: 0 <= i < j < |nodes| ==> nodes[i] != nodes[j]
      ensures var r := InsertAt(nodes, at, node);
        && |r| == |nodes| + 1 && r[at] == node
        && (at > 0 ==> r[0] == nodes[0]) && (at < |nodes| ==> r[|nodes|] == nodes[|nodes| - 1])
        && forall i, j :: 0 <= i < j < |r| ==> r[i] != r[j]
    {
    }

    /** `listInsertNode`: before or after a node of the list. */
    method Insert(oldNode: Node, value: int, after: bool, ghost k: nat)
      requires Valid() && k < |Nodes| && Nodes[k] == oldNode
      modifies this`head, this`tail, this`len, this`Nodes, this`Values, Nodes`prev, Nodes`next
      ensures Valid()
      ensures var at := if after then k + 1 else k;
        && |Nodes| == |old(Nodes)| + 1 && Nodes == InsertAt(old(Nodes), at, Nodes[at]) && fresh(Nodes[at])
        && Values == InsertAt(old(Values), at, value)
    {
      ghost var nodes := Nodes;
      assert NodeOk(nodes, Values, k);
      ghost var at := if after then k + 1 else k;
      hide InsertAt, NodeOk;
      var node;
      if after {
        node := new Node(value, oldNode, oldNode.next);
        if tail == oldNode {
          tail := node;
        }
      } else {
        node := new Node(value, oldNode.prev, oldNode);
        if head == oldNode {
          head := node;
        }
      }
      LinkIn(node, at);
      InsertDistinct(nodes, at, node);
    }

    /** `listDelNode` */
    method Delete(node: Node, ghost k: nat)
      requires Valid() && k < |Nodes| && Nodes[k] == node
      modifies this`head, this`tail, this`len, this`Nodes, this`Values, Nodes`prev, Nodes`next
      ensures Valid()
      ensures Nodes == Without(old(Nodes), k) && Values == Without(old(Values), k)
    {
      ghost var nodes, vs := Nodes, Values;
      assert NodeOk(nodes, vs, k);
      if node.prev != null {
        node.prev.next := node.next;
      } else {
        head := node.next;
      }
      if node.next != null {
        node.next.prev := node.prev;
      } else {
        tail := node.prev;
      }
      len := len - 1;
      Nodes, Values := Without(nodes, k), Without(Values, k);
      forall i | 0 <= i < |Nodes|
        ensures NodeOk(Nodes, Values, i)
      {
        assert old(NodeOk(nodes, vs, if i < k then i else i + 1));
        assert Nodes[i] == nodes[if i < k then i else i + 1];
        assert i > 0 ==> Nodes[i - 1] == nodes[if i - 1 < k then i - 1 else i];
        assert i + 1 < |Nodes| ==> Nodes[i + 1] == nodes[if i + 1 < k then i + 1 else i + 2];
      }
    }

    /** `listRotate`: the tail becomes the head. */
    method Rotate()
      requires Valid()
      modifies this`head, this`tail, this`Nodes, this`Values, Nodes`prev, Nodes`next
      ensures Valid()
      ensures |old(Nodes)| <= 1 ==> Nodes == old(Nodes) && Values == old(Values)
      ensures |old(Nodes)| > 1 ==> Nodes == [old(Nodes)[|old(Nodes)| - 1]] + old(Nodes)[..|old(Nodes)| - 1]
      ensures |old(Nodes)| > 1 ==> Values == [old(Values)[|old(Nodes)| - 1]] + old(Values)[..|old(Nodes)| - 1]
    {
      var last := tail;
      if len <= 1 {
        return;
      }
      ghost var nodes, vs := Nodes, Values;
      ghost var n := |nodes|;
      assert NodeOk(nodes, vs, n - 1) && NodeOk(nodes, vs, n - 2) && NodeOk(nodes, vs, 0);
      tail := last.prev;
      tail.next := null;
      head.prev := last;
      last.prev := null;
      last.next := head;
      head := last;
      Nodes, Values := [last] + nodes[..n - 1], [vs[n - 1]] + vs[..n - 1];
      forall i | 0 <= i < |Nodes|
        ensures NodeOk(Nodes, Values, i)
      {
        assert old(NodeOk(nodes, vs, if i == 0 then n - 1 else i - 1));
      }
    }

    /** `listIndex`: from the head for 0 and up, from the tail for -1 and down. */
    method Index(index: int) returns (n: Node?)
      requires Valid()
      ensures 0 <= index < |Nodes| ==> n == Nodes[index]
      ensures -|Nodes| <= index < 0 ==> n == Nodes[|Nodes| + index]
      ensures !(-|Nodes| <= index < |Nodes|) ==> n == null
    {
      if index < 0 {
        var i := -index - 1;
        n := tail;
        ghost var k := |Nodes| - 1;
        while i != 0 && n != null
          invariant 0 <= i && -1 <= k < |Nodes| && n == (if k < 0 then null else Nodes[k])
          invariant n != null || k == -1
          invariant k >= 0 ==> k - i == |Nodes| + index
          invariant k < 0 ==> index < -|Nodes| || |Nodes| == 0
          decreases i
        {
          assert NodeOk(Nodes, Values, k);
          i := i - 1;
          n := n.prev;
          k := k - 1;
        }
      } else {
        var i := index;
        n := head;
        ghost var k := 0;
        while i != 0 && n != null
          invariant 0 <= i && 0 <= k <= |Nodes| && n == (if k == |Nodes| then null else Nodes[k])
          invariant k + i == index
          decreases i
        {
          assert NodeOk(Nodes, Values, k);
          i := i - 1;
          n := n.next;
          k := k + 1;
        }
      }
    }

    /** `listSearchKey`: the first match from the head. */
    method SearchKey(key: int) returns (n: Node?)
      requires Valid()
      ensures n == null <==> forall i :: 0 <= i < |Nodes| ==> !Matches(Nodes[i].value, key)
      ensures n != null ==>
        exists k :: 0 <= k < |Nodes| && n == Nodes[k] && FirstMatch(k, key)
      ensures match_.Some? ==>
        if n == null then forall i :: 0 <= i < |Nodes| ==> !match_.value(Nodes[i].value, key)
        else match_.value(n.value, key)
      ensures match_.None? ==>
        if n == null then forall i :: 0 <= i < |Nodes| ==> Nodes[i].value != key else n.value == key
    {
      var iter := new Iter.Rewind(this);
      ghost var k := 0;
      while true
        invariant fresh(iter) && iter.fromHead && iter.At(this, k) && 0 <= k <= |Nodes|
        invariant forall i :: 0 <= i < k ==> !Matches(Nodes[i].value, key)
        decreases |Nodes| - k
      {
        n := iter.Next(this, k);
        if n == null {
          return;
        }
        assert n == Nodes[k];
        if match_.Some? {
          if match_.value(n.value, key) {
            return;
          }
        } else if key == n.value {
          return;
        }
        k := k + 1;
      }
    }

    ghost predicate FirstMatch(k: nat, key: int)
      requires k < |Nodes|
      reads this, Nodes
    {
      Matches(Nodes[k].value, key) && forall i :: 0 <= i < k ==> !Matches(Nodes[i].value, key)
    }

    predicate Matches(value: int, key: int)
      reads this`match_
    {
      if match_.Some? then match_.value(value, key) else key == value
    }
  }

  /** `listIter` */
  class Iter {
    var next: Node?
    var fromHead: bool

    /** The iterator will give node `k` next; `|Nodes|`, or -1 when walking from
        the tail, is the end. */
    ghost predicate At(list: List, k: int)
      reads this, list
    {
      && -1 <= k <= |list.Nodes|
      && next == (if k == -1 || k == |list.Nodes| then null else list.Nodes[k])
      && (fromHead ==> k >= 0) && (!fromHead ==> k < |list.Nodes|)
    }

    /** `listRewind` */
    constructor Rewind(list: List)
      requires list.Valid()
      ensures fromHead && At(list, 0)
    {
      next := list.head;
      fromHead := true;
    }

    /** `listRewindTail` */
    constructor RewindTail(list: List)
      requires list.Valid()
      ensures !fromHead && At(list, |list.Nodes| - 1)
    {
      next := list.tail;
      fromHead := false;
    }

    /** `listNext` */
    method Next(list: List, ghost k: int) returns (current: Node?)
      requires list.Valid() && At(list, k)
      modifies this`next
      ensures fromHead == old(fromHead)
      ensures current == (if k == -1 || k == |list.Nodes| then null else list.Nodes[k])
      ensures At(list, if current == null then k else if fromHead then k + 1 else k - 1)
    {
      current := next;
      if current != null {
        assert NodeOk(list.Nodes, list.Values, k);
        if fromHead {
          next := current.next;
        } else {
          next := current.prev;
        }
      }
    }
  }

  lemma ValueAt(list: List, k: nat)
    requires list.Valid() && k < |list.Nodes|
    ensures |list.Values| == |list.Nodes| && list.Nodes[k].value == list.Values[k]
  {
    assert NodeOk(list.Nodes, list.Values, k);
  }

  lemma SameLength(list: List)
    requires list.Valid()
    ensures |list.Values| == |list.Nodes| == list.len
  {
  }

  /** `listDup`: a copy in new nodes, with each value as the `dup` function makes
      it; nothing when that fails. The original is not touched. */
  method Dup(orig: List) returns (copy: List?)
    requires orig.Valid()
    ensures copy == null <==>
      orig.dup.Some? && exists i :: 0 <= i < |orig.Nodes| && orig.dup.value(orig.Values[i]) == None
    ensures copy != null ==>
      && copy.Valid() && fresh(copy) && (forall i :: 0 <= i < |copy.Nodes| ==> fresh(copy.Nodes[i]))
      && copy.dup == orig.dup && copy.match_ == orig.match_
      && |copy.Nodes| == |orig.Nodes|
      && |copy.Values| == |orig.Values|
      && forall i :: 0 <= i < |orig.Values| ==>
           if orig.dup.Some? then orig.dup.value(orig.Values[i]) == Some(copy.Values[i])
           else copy.Values[i] == orig.Values[i]
  {
    hide List.Valid, NodeOk;
    SameLength(orig);
    var list := new List.Like(orig.dup, orig.match_);
    var iter := new Iter.Rewind(orig);
    ghost var k := 0;
    while true
      invariant orig.Valid() && |orig.Values| == |orig.Nodes|
      invariant 0 <= k <= |orig.Nodes| && iter.At(orig, k) && iter.fromHead && fresh(iter)
      invariant list.Valid() && fresh(list) && (forall i :: 0 <= i < |list.Nodes| ==> fresh(list.Nodes[i]))
      invariant list.dup == orig.dup && list.match_ == orig.match_
      invariant |list.Nodes| == |list.Values| == k
      invariant forall i :: 0 <= i < k ==> Duplicate(orig.dup, orig.Values[i]) == Some(list.Values[i])
      decreases |orig.Nodes| - k
    {
      var node := iter.Next(orig, k);
      if node == null {
        return list;
      }
      ValueAt(orig, k);
      var value := Duplicate(list.dup, node.value);
      if value == None {
        return null;
      }
      list.AddTail(value.value);
      k := k + 1;
    }
  }

  function Duplicate(dup: Option<int -> Option<int>>, value: int): Option<int> {
    if dup.Some? then dup.value(value) else Some(value)
  }

  /** What stays of `vs`, whose first element stands at position `lo`. */
  function Filter(vs: seq<int>, lo: nat, keep: nat -> bool): seq<int> {
    if vs == [] then []
    else Filter(vs[..|vs| - 1], lo, keep) + if keep(lo + |vs| - 1) then [vs[|vs| - 1]] else []
  }

  /** What is at a position to keep stays, behind those that stay of the ones before
      it. */
  lemma {:induction false} FilterAt(vs: seq<int>, lo: nat, keep: nat -> bool, i: nat)
    requires i < |vs| && keep(lo + i)
    ensures |Filter(vs[..i], lo, keep)| < |Filter(vs, lo, keep)|
    ensures Filter(vs, lo, keep)[|Filter(vs[..i], lo, keep)|] == vs[i]
  {
    var front := vs[..|vs| - 1];
    if i < |front| {
      FilterAt(front, lo, keep, i);
      assert front[..i] == vs[..i];
    }
  }

  /** Nothing else stays. */
  lemma {:induction false} FilterFrom(vs: seq<int>, lo: nat, keep: nat -> bool, k: nat) returns (i: nat)
    requires k < |Filter(vs, lo, keep)|
    ensures i < |vs| && keep(lo + i) && vs[i] == Filter(vs, lo, keep)[k] && |Filter(vs[..i], lo, keep)| == k
  {
    var front := vs[..|vs| - 1];
    if k < |Filter(front, lo, keep)| {
      i := FilterFrom(front, lo, keep, k);
      assert front[..i] == vs[..i];
    } else {
      i := |front|;
    }
  }

  /** One more element visited: kept in place, or taken out. */
  lemma FilterStep(vs: seq<int>, keep: nat -> bool, now: seq<int>, m: nat, k: nat)
    requires m < |vs| && now == Filter(vs[..m], 0, keep) + vs[m..] && k == |Filter(vs[..m], 0, keep)|
    ensures k < |now| && now[k] == vs[m] && vs[..m + 1] == vs[..m] + [vs[m]]
    ensures keep(m) ==> now == Filter(vs[..m + 1], 0, keep) + vs[m + 1..] && |Filter(vs[..m + 1], 0, keep)| == k + 1
    ensures !keep(m) ==>
      Without(now, k) == Filter(vs[..m + 1], 0, keep) + vs[m + 1..] && |Filter(vs[..m + 1], 0, keep)| == k
  {
    assert vs[..m + 1][..m] == vs[..m];
    assert vs[m..] == [vs[m]] + vs[m + 1..];
  }

  /** The promise of `listNext`: the element just returned may be deleted, and the
      walk still visits every element exactly once. `keep` says which positions of
      the list to leave. */
  method VisitAndDelete(list: List, keep: nat -> bool) returns (visited: seq<int>)
    requires list.Valid()
    modifies list`head, list`tail, list`len, list`Nodes, list`Values, list.Nodes`prev, list.Nodes`next
    ensures list.Valid()
    ensures visited == old(list.Values)
    ensures list.Values == Filter(old(list.Values), 0, keep)
  {
    hide Filter, Without, List.Valid, NodeOk;
    ghost var vs := list.Values;
    var iter := new Iter.Rewind(list);
    visited := [];
    var m := 0;
    ghost var k := 0;
    FilterNone(vs, keep);
    SameLength(list);
    while true
      invariant list.Valid() && (forall i :: 0 <= i < |list.Nodes| ==> list.Nodes[i] in old(list.Nodes))
      invariant fresh(iter) && iter.fromHead && iter.At(list, k) && 0 <= k <= |list.Nodes|
      invariant m <= |vs| && visited == vs[..m]
      invariant list.Values == Filter(vs[..m], 0, keep) + vs[m..] && k == |Filter(vs[..m], 0, keep)|
      decreases |vs| - m
    {
      var node := iter.Next(list, k);
      if node == null {
        SameLength(list);
        assert m == |vs| && vs[..m] == vs;
        return;
      }
      ValueAt(list, k);
      FilterStep(vs, keep, list.Values, m, k);
      visited := visited + [node.value];
      if keep(m) {
        k := k + 1;
      } else {
        Deleted(list, iter, node, k);
      }
      m := m + 1;
    }
  }

  function Reversed(vs: seq<int>): seq<int> {
    if vs == [] then [] else Reversed(vs[1..]) + [vs[0]]
  }

  lemma {:induction false} ReversedAt(vs: seq<int>, i: nat)
    requires i < |vs|
    ensures |Reversed(vs)| == |vs| && Reversed(vs)[i] == vs[|vs| - 1 - i]
  {
    if |vs| > 1 {
      ReversedAt(vs[1..], if i < |vs| - 1 then i else 0);
    }
  }

  lemma {:induction false} FilterFront(vs: seq<int>, lo: nat, keep: nat -> bool)
    requires vs != []
    ensures Filter(vs, lo, keep) == (if keep(lo) then [vs[0]] else []) + Filter(vs[1..], lo + 1, keep)
  {
    if |vs| > 1 {
      FilterFront(vs[..|vs| - 1], lo, keep);
      assert vs[..|vs| - 1][1..] == vs[1..][..|vs| - 2];
    }
  }

  /** One more element visited from the tail. */
  lemma FilterStepBack(vs: seq<int>, keep: nat -> bool, now: seq<int>, m: nat)
    requires m < |vs| && now == vs[..m + 1] + Filter(vs[m + 1..], m + 1, keep)
    ensures now[m] == vs[m] && Reversed(vs[m..]) == Reversed(vs[m + 1..]) + [vs[m]]
    ensures keep(m) ==> now == vs[..m] + Filter(vs[m..], m, keep)
    ensures !keep(m) ==> Without(now, m) == vs[..m] + Filter(vs[m..], m, keep)
  {
    FilterFront(vs[m..], m, keep);
    assert vs[m..][1..] == vs[m + 1..];
    assert vs[..m + 1] == vs[..m] + [vs[m]];
  }

  /** The same promise for a walk from the tail. */
  method VisitBackAndDelete(list: List, keep: nat -> bool) returns (visited: seq<int>)
    requires list.Valid()
    modifies list`head, list`tail, list`len, list`Nodes, list`Values, list.Nodes`prev, list.Nodes`next
    ensures list.Valid()
    ensures visited == Reversed(old(list.Values))
    ensures list.Values == Filter(old(list.Values), 0, keep)
  {
    hide Filter, Without, Reversed, List.Valid, NodeOk;
    SameLength(list);
    ghost var vs := list.Values;
    var iter := new Iter.RewindTail(list);
    visited := [];
    var m := list.len;
    FilterBackStart(vs, keep);
    while true
      invariant list.Valid() && (forall i :: 0 <= i < |list.Nodes| ==> list.Nodes[i] in old(list.Nodes))
      invariant fresh(iter) && !iter.fromHead && 0 <= m <= |vs| && iter.At(list, m - 1)
      invariant visited == Reversed(vs[m..])
      invariant list.Values == vs[..m] + Filter(vs[m..], m, keep)
      decreases m
    {
      SameLength(list);
      var node := iter.Next(list, m - 1);
      if node == null {
        assert vs[0..] == vs;
        return;
      }
      m := m - 1;
      ValueAt(list, m);
      FilterStepBack(vs, keep, list.Values, m);
      visited := visited + [node.value];
      if !keep(m) {
        Deleted(list, iter, node, m);
      }
    }
  }

  lemma FilterBackStart(vs: seq<int>, keep: nat -> bool)
    ensures vs[|vs|..] == [] && vs[..|vs|] == vs && Reversed(vs[|vs|..]) == [] && Filter(vs[|vs|..], |vs|, keep) == []
  {
  }

  lemma FilterNone(vs: seq<int>, keep: nat -> bool)
    ensures Filter(vs[..0], 0, keep) == [] && vs[..0] == [] && vs[0..] == vs
  {
  }

  /** Deleting the element just returned leaves the iterator at the element that
      comes next, whichever way it walks. */
  method Deleted(list: List, iter: Iter, node: Node, ghost k: nat)
    requires list.Valid() && k < |list.Nodes| && list.Nodes[k] == node
    requires iter.At(list, if iter.fromHead then k + 1 else k - 1)
    modifies list`head, list`tail, list`len, list`Nodes, list`Values, list.Nodes`prev, list.Nodes`next
    ensures list.Valid() && list.Nodes == Without(old(list.Nodes), k) && list.Values == Without(old(list.Values), k)
    ensures iter.At(list, if iter.fromHead then k else k - 1)
    ensures forall i :: 0 <= i < |list.Nodes| ==> list.Nodes[i] in old(list.Nodes)
  {
    list.Delete(node, k);
  }
}
