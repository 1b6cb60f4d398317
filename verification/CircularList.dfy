/** The intrusive circular list (data_structure/list.h): a head node and the
    sequence of entries behind it. */
module CircularList {
  import opened Basics

  /** `struct list_head` */
  class Node {
    var next: Node?
    var prev: Node?

    constructor ()
    {
      next, prev := null, null;
    }
  }

  /** Node `i` of a circle is linked to its neighbours, around the end. */
  ghost predicate LinkOk(c: seq<Node>, i: nat)
    requires i < |c|
    reads c
  {
    && c[i].next == c[if i == |c| - 1 then 0 else i + 1]
    && c[i].prev == c[if i == 0 then |c| - 1 else i - 1]
  }

  ghost predicate Distinct(c: seq<Node>) {
    forall i, j :: 0 <= i < j < |c| ==> c[i] != c[j]
  }

  /** `c` is a whole circle; a list is the circle of its head and its entries. */
  ghost predicate Circle(c: seq<Node>)
    reads c
  {
    c != [] && Distinct(c) && forall i :: 0 <= i < |c| ==> LinkOk(c, i)
  }

  /** `INIT_LIST_HEAD` */
  method Init(p: Node)
    modifies p
    ensures Circle([p])
  {
    p.next := p;
    p.prev := p;
  }

  /** `__list_add`: between node `k - 1` and the node behind it. */
  method AddBetween(p: Node, prev: Node, next: Node, ghost c: seq<Node>, ghost k: nat)
    requires Circle(c) && p !in c && 1 <= k <= |c|
    requires prev == c[k - 1] && next == c[if k == |c| then 0 else k]
    modifies p, c
    ensures Circle(InsertAt(c, k, p))
  {
    next.prev := p;
    p.next := next;
    p.prev := prev;
    prev.next := p;
    ghost var d := InsertAt(c, k, p);
    forall i | 0 <= i < |d|
      ensures LinkOk(d, i)
    {
      assert i < k ==> old(LinkOk(c, i));
      assert i > k ==> old(LinkOk(c, i - 1));
    }
  }

  /** `list_add`: the new entry is the first. */
  method Add(p: Node, head: Node, ghost c: seq<Node>)
    requires Circle(c) && p !in c && head == c[0]
    modifies p, c
    ensures Circle(InsertAt(c, 1, p))
  {
    assert LinkOk(c, 0);
    AddBetween(p, head, head.next, c, 1);
  }

  /** `list_add_tail`: the new entry is the last. */
  method AddTail(p: Node, head: Node, ghost c: seq<Node>)
    requires Circle(c) && p !in c && head == c[0]
    modifies p, c
    ensures Circle(c + [p])
  {
    assert LinkOk(c, 0);
    AddBetween(p, head.prev, head, c, |c|);
    assert InsertAt(c, |c|, p) == c + [p];
  }

  /** `__list_del` on the neighbours of entry `k`; the entry keeps its links, and
      so does one that is alone in its circle. */
  method Close(entry: Node, ghost c: seq<Node>, ghost k: nat)
    requires Circle(c) && k < |c| && entry == c[k]
    modifies c
    ensures entry !in Without(c, k) && (|c| > 1 ==> Circle(Without(c, k)))
  {
    assert LinkOk(c, k);
    var prev, next := entry.prev, entry.next;
    next.prev := prev;
    prev.next := next;
    ghost var d := Without(c, k);
    forall i | 0 <= i < |d|
      ensures LinkOk(d, i)
    {
      assert old(LinkOk(c, if i < k then i else i + 1));
    }
  }

  /** `list_del` */
  method Delete(entry: Node, ghost c: seq<Node>, ghost k: nat)
    requires Circle(c) && k < |c| && entry == c[k]
    modifies c
    ensures |c| > 1 ==> Circle(Without(c, k))
    ensures entry.next == null && entry.prev == null
  {
    Close(entry, c, k);
    entry.next := null;
    entry.prev := null;
  }

  /** `list_del_init`: the entry becomes a circle of its own, if it was not. */
  method DeleteInit(entry: Node, ghost c: seq<Node>, ghost k: nat)
    requires Circle(c) && k < |c| && entry == c[k]
    modifies c
    ensures |c| > 1 ==> Circle(Without(c, k))
    ensures Circle([entry])
  {
    Close(entry, c, k);
    Init(entry);
  }

  /** `list_move`: from one list to the front of another. */
  method Move(entry: Node, head: Node, ghost c: seq<Node>, ghost k: nat, ghost d: seq<Node>)
    requires Circle(c) && k < |c| && entry == c[k]
    requires Circle(d) && head == d[0] && forall i, j :: 0 <= i < |c| && 0 <= j < |d| ==> c[i] != d[j]
    modifies c, d
    ensures |c| > 1 ==> Circle(Without(c, k))
    ensures Circle(InsertAt(d, 1, entry))
  {
    Close(entry, c, k);
    ghost var rest := Without(c, k);
    assert forall i :: 0 <= i < |rest| ==> rest[i] == c[if i < k then i else i + 1];
    Add(entry, head, d);
  }

  /** `list_move_tail` */
  method MoveTail(entry: Node, head: Node, ghost c: seq<Node>, ghost k: nat, ghost d: seq<Node>)
    requires Circle(c) && k < |c| && entry == c[k]
    requires Circle(d) && head == d[0] && forall i, j :: 0 <= i < |c| && 0 <= j < |d| ==> c[i] != d[j]
    modifies c, d
    ensures |c| > 1 ==> Circle(Without(c, k))
    ensures Circle(d + [entry])
  {
    Close(entry, c, k);
    ghost var rest := Without(c, k);
    assert forall i :: 0 <= i < |rest| ==> rest[i] == c[if i < k then i else i + 1];
    AddTail(entry, head, d);
  }

  /** `list_move` inside one list: the entry comes to the front. */
  method MoveToFront(entry: Node, head: Node, ghost c: seq<Node>, ghost k: nat)
    requires Circle(c) && 1 <= k < |c| && entry == c[k] && head == c[0]
    modifies c
    ensures Circle(InsertAt(Without(c, k), 1, entry))
  {
    Close(entry, c, k);
    ghost var rest := Without(c, k);
    assert forall i :: 0 <= i < |rest| ==> rest[i] == c[if i < k then i else i + 1];
    Add(entry, head, rest);
  }

  /** `list_move_tail` inside one list: the entry comes to the end. */
  method MoveToTail(entry: Node, head: Node, ghost c: seq<Node>, ghost k: nat)
    requires Circle(c) && 1 <= k < |c| && entry == c[k] && head == c[0]
    modifies c
    ensures Circle(Without(c, k) + [entry])
  {
    Close(entry, c, k);
    ghost var rest := Without(c, k);
    assert forall i :: 0 <= i < |rest| ==> rest[i] == c[if i < k then i else i + 1];
    AddTail(entry, head, rest);
  }

  /** `list_empty` */
  method IsEmpty(head: Node, ghost c: seq<Node>) returns (empty: bool)
    requires Circle(c) && head == c[0]
    ensures empty <==> |c| == 1
  {
    assert LinkOk(c, 0);
    empty := head.next == head;
  }

  /** The circle after splicing the entries of `l` in behind the head of `c`. */
  function Spliced<T>(l: seq<T>, c: seq<T>): seq<T>
    requires l != [] && c != []
  {
    [c[0]] + l[1..] + c[1..]
  }

  /** The entries of `l`, without its head, come right behind the head of `c`, and
      then the other entries of `c`. */
  lemma SplicedAt<T>(l: seq<T>, c: seq<T>, i: nat)
    requires l != [] && c != []
    ensures |Spliced(l, c)| == |l| + |c| - 1
    ensures i < |l| + |c| - 1 ==>
      Spliced(l, c)[i] == if i == 0 then c[0] else if i < |l| then l[i] else c[i - |l| + 1]
  {
  }

  lemma SplicedDistinct(l: seq<Node>, c: seq<Node>)
    requires l != [] && c != [] && Distinct(l) && Distinct(c)
    requires forall i, j :: 0 <= i < |l| && 0 <= j < |c| ==> l[i] != c[j]
    ensures Distinct(Spliced(l, c)) && l[0] !in Spliced(l, c)
  {
  }

  /** `list_splice_init`: the whole other list goes behind the head, in order, and
      is left empty. */
  method SpliceInit(list: Node, head: Node, ghost l: seq<Node>, ghost c: seq<Node>)
    requires Circle(l) && list == l[0] && Circle(c) && head == c[0]
    requires forall i, j :: 0 <= i < |l| && 0 <= j < |c| ==> l[i] != c[j]
    modifies l, c
    ensures Circle(Spliced(l, c)) && Circle([list])
  {
    var empty := IsEmpty(list, l);
    if empty {
      assert Spliced(l, c) == c && l == [list];
      return;
    }
    assert LinkOk(l, 0) && LinkOk(c, 0);
    var first, last, at := list.next, list.prev, head.next;
    first.prev := head;
    head.next := first;
    last.next := at;
    at.prev := last;
    ghost var d := Spliced(l, c);
    Init(list);
    SplicedDistinct(l, c);
    hide Distinct;
    forall i | 0 <= i < |d|
      ensures LinkOk(d, i)
    {
      if 0 < i < |l| {
        assert old(LinkOk(l, i));
      } else {
        assert old(LinkOk(c, if i == 0 then 0 else i - |l| + 1));
      }
    }
  }

  /** The circle that is left when all entries before number `n` are gone. */
  ghost function From(c: seq<Node>, n: nat): seq<Node>
    requires 1 <= n <= |c|
  {
    [c[0]] + c[n..]
  }

  lemma FromNext(c: seq<Node>, n: nat)
    requires Distinct(c) && 1 <= n < |c|
    ensures From(c, n)[1] == c[n] && Without(From(c, n), 1) == From(c, n + 1) && |From(c, n)| > 1
    ensures forall i :: 1 <= i < n ==> c[i] !in From(c, n)
  {
  }

  lemma CircleIsDistinct(c: seq<Node>)
    requires Circle(c)
    ensures Distinct(c) && c != []
  {
  }

  lemma FromIsNotEmpty(c: seq<Node>, n: nat)
    requires 1 <= n <= |c|
    ensures |From(c, n)| == 1 + |c| - n && From(c, n)[0] == c[0]
  {
  }

  lemma OnlyFirstLeft(c: seq<Node>, n: nat)
    requires n == |c| > 0
    ensures From(c, n) == [c[0]]
  {
  }

  lemma FromStart(c: seq<Node>)
    requires |c| > 0
    ensures From(c, 1) == c
  {
  }

  /** One turn of `FreeList`: the first entry is reset. */
  method FreeFirst(head: Node, ghost c: seq<Node>, ghost n: nat)
    requires Distinct(c) && 1 <= n < |c| && head == c[0] && Circle(From(c, n))
    requires forall i :: 1 <= i < n ==> Circle([c[i]])
    modifies c
    ensures Circle(From(c, n + 1)) && forall i :: 1 <= i < n + 1 ==> Circle([c[i]])
  {
    FromNext(c, n);
    FromIsNotEmpty(c, n);
    FirstOf(From(c, n));
    hide LinkOk, Without, From, Circle, Distinct;
    DeleteInit(head.next, From(c, n), 1);
  }

  /** `CListHead::FreeList`: ends with every node a circle of its own. */
  method FreeList(head: Node, ghost c: seq<Node>)
    requires Circle(c) && head == c[0]
    modifies c
    ensures forall i :: 0 <= i < |c| ==> Circle([c[i]])
  {
    ghost var n := 1;
    CircleIsDistinct(c);
    FromStart(c);
    hide LinkOk, Without, From, Circle, Distinct;
    while true
      invariant 1 <= n <= |c| && Circle(From(c, n))
      invariant forall i :: 1 <= i < n ==> Circle([c[i]])
      decreases |c| - n
    {
      FromIsNotEmpty(c, n);
      var empty := IsEmpty(head, From(c, n));
      if empty {
        break;
      }
      FreeFirst(head, c, n);
      n := n + 1;
    }
    OnlyFirstLeft(c, n);
  }

  function Kept(c: seq<Node>, doomed: set<Node>): seq<Node> {
    if c == [] then [] else Kept(c[..|c| - 1], doomed) + if c[|c| - 1] in doomed then [] else [c[|c| - 1]]
  }

  /** Every entry that is not doomed stays, behind those that stay of the ones before
      it. */
  lemma {:induction false} KeptAt(c: seq<Node>, doomed: set<Node>, i: nat)
    requires i < |c| && c[i] !in doomed
    ensures |Kept(c[..i], doomed)| < |Kept(c, doomed)| && Kept(c, doomed)[|Kept(c[..i], doomed)|] == c[i]
  {
    var front := c[..|c| - 1];
    if i < |front| {
      KeptAt(front, doomed, i);
      assert front[..i] == c[..i];
    }
  }

  /** And no other. */
  lemma {:induction false} KeptFrom(c: seq<Node>, doomed: set<Node>, k: nat) returns (i: nat)
    requires k < |Kept(c, doomed)|
    ensures i < |c| && c[i] !in doomed && c[i] == Kept(c, doomed)[k] && |Kept(c[..i], doomed)| == k
  {
    var front := c[..|c| - 1];
    if k < |Kept(front, doomed)| {
      i := KeptFrom(front, doomed, k);
      assert front[..i] == c[..i];
    } else {
      i := |front|;
    }
  }

  /** `list_for_each_safe`, deleting some of the entries: every entry is visited
      once, in order. */
  method VisitSafely(head: Node, doomed: set<Node>, ghost c: seq<Node>) returns (visited: seq<Node>)
    requires Circle(c) && head == c[0] && head !in doomed
    modifies c
    ensures visited == c[1..] && Circle(Kept(c, doomed))
  {
    hide Kept, Without, Distinct, LinkOk;
    visited := [];
    ghost var m, now := 1, c;
    KeptStart(c, doomed);
    FirstOf(c);
    var pos := head.next;
    while pos != head
      invariant 1 <= m <= |c| && pos == (if m == |c| then head else c[m])
      invariant visited == c[1..m]
      invariant now == Kept(c[..m], doomed) + c[m..] && Circle(now) && now[0] == head
      invariant |Kept(c[..m], doomed)| >= 1 && forall i :: 0 <= i < |now| ==> now[i] in c
      decreases |c| - m
    {
      ghost var k := |Kept(c[..m], doomed)|;
      KeptStep(c, doomed, now, m);
      NextOf(now, k);
      var n := pos.next;
      visited := visited + [pos];
      if pos in doomed {
        Delete(pos, now, k);
        now := Without(now, k);
      }
      m := m + 1;
      pos := n;
    }
    OnlyHead(c, m);
    assert c[..m] == c && now == Kept(c, doomed);
  }

  lemma FirstOf(c: seq<Node>)
    requires Circle(c)
    ensures c[0].next == (if |c| == 1 then c[0] else c[1])
  {
    assert LinkOk(c, 0);
  }

  lemma NextOf(c: seq<Node>, k: nat)
    requires Circle(c) && 1 <= k < |c|
    ensures c[k].next == (if k + 1 == |c| then c[0] else c[k + 1])
  {
    assert LinkOk(c, k);
  }

  lemma OnlyHead(c: seq<Node>, m: nat)
    requires Distinct(c) && 1 <= m <= |c| && (m < |c| ==> c[m] == c[0])
    ensures m == |c|
  {
  }

  lemma KeptStart(c: seq<Node>, doomed: set<Node>)
    requires c != [] && c[0] !in doomed
    ensures Kept(c[..1], doomed) == [c[0]] && c == [c[0]] + c[1..]
  {
    assert c[..1][..0] == [];
  }

  lemma SplitAt<T>(front: seq<T>, x: T, back: seq<T>, now: seq<T>)
    requires now == front + ([x] + back)
    ensures |front| < |now| && now[|front|] == x && now[|front| + 1..] == back
    ensures Without(now, |front|) == front + back && now == (front + [x]) + back
    ensures forall i :: 0 <= i < |front + back| ==> (front + back)[i] in now
    ensures front != [] ==> now[0] == front[0] == (front + back)[0]
  {
    forall i | 0 <= i < |front + back|
      ensures (front + back)[i] in now
    {
      assert (front + back)[i] == now[if i < |front| then i else i + 1];
    }
  }

  lemma KeptMore(c: seq<Node>, doomed: set<Node>, m: nat)
    requires m < |c|
    ensures Kept(c[..m + 1], doomed) == Kept(c[..m], doomed) + if c[m] in doomed then [] else [c[m]]
    ensures c[m..] == [c[m]] + c[m + 1..]
  {
    assert c[..m + 1][..m] == c[..m];
  }

  lemma KeptStep(c: seq<Node>, doomed: set<Node>, now: seq<Node>, m: nat)
    requires m < |c| && now == Kept(c[..m], doomed) + c[m..]
    ensures var k := |Kept(c[..m], doomed)|; k < |now| && now[k] == c[m] && now[k + 1..] == c[m + 1..]
    ensures |Kept(c[..m + 1], doomed)| >= |Kept(c[..m], doomed)|
    ensures var k := |Kept(c[..m], doomed)|; forall i :: 0 <= i < |Without(now, k)| ==> Without(now, k)[i] in now
    ensures |Kept(c[..m], doomed)| > 0 ==> Without(now, |Kept(c[..m], doomed)|)[0] == now[0]
    ensures var k := |Kept(c[..m], doomed)|;
      if c[m] in doomed then
        Kept(c[..m + 1], doomed) == Kept(c[..m], doomed) && Without(now, k) == Kept(c[..m + 1], doomed) + c[m + 1..]
      else now == Kept(c[..m + 1], doomed) + c[m + 1..]
  {
    KeptMore(c, doomed, m);
    SplitAt(Kept(c[..m], doomed), c[m], c[m + 1..], now);
    hide Kept, Without;
  }
}
