/** The member list of a group request, and cancelling (libeio/eio.c,
    libeio/etp.c). */
module GroupList {
  import opened Basics
  import opened Requests

  /** Member `i` and its neighbours. */
  ghost predicate LinkOk(g: Request, ms: seq<Request>, i: nat)
    requires i < |ms|
    reads ms`grp, ms`grp_prev, ms`grp_next
  {
    && ms[i] != g
    && ms[i].grp == g
    && ms[i].grp_prev == (if i == 0 then null else ms[i - 1])
    && ms[i].grp_next == (if i == |ms| - 1 then null else ms[i + 1])
  }

  /** The member list of `g`, from `grp_first`, is the sequence `ms`. */
  ghost predicate Chained(g: Request, ms: seq<Request>)
    reads g`grp_first, ms`grp, ms`grp_prev, ms`grp_next
  {
    && g.grp_first == (if ms == [] then null else ms[0])
    && (forall i :: 0 <= i < |ms| ==> LinkOk(g, ms, i))
    && (forall i, j :: 0 <= i < j < |ms| ==> ms[i] != ms[j])
  }

  /** A group request: `size` is the length of its member list. In other requests
      `size` is the length of some operand, whatever their members. */
  ghost predicate Listed(g: Request, ms: seq<Request>)
    reads g`size, g`grp_first, ms`grp, ms`grp_prev, ms`grp_next
  {
    g.size == |ms| && Chained(g, ms)
  }

  /** `eio_grp_add`: the request becomes the first member. */
  method GroupAdd(g: Request, r: Request, ghost ms: seq<Request>)
    requires Listed(g, ms) && r != g && r !in ms
    modifies g`size, g`grp_first, r`grp, r`grp_prev, r`grp_next, ms`grp_prev
    ensures Listed(g, [r] + ms)
  {
    assert ms != [] ==> LinkOk(g, ms, 0);
    g.size := g.size + 1;
    r.grp := g;
    r.grp_prev := null;
    r.grp_next := g.grp_first;
    if g.grp_first != null {
      g.grp_first.grp_prev := r;
    }
    g.grp_first := r;
    ghost var all := [r] + ms;
    forall i | 0 <= i < |all|
      ensures LinkOk(g, all, i)
    {
      if i > 0 {
        assert old(LinkOk(g, ms, i - 1));
      }
    }
  }

  /** The unlinking in `eio_finish` and the count in `grp_dec`, for a member
      anywhere in the list. */
  method Unlink(r: Request, ghost ms: seq<Request>, ghost k: nat)
    requires r.grp != null && Listed(r.grp, ms) && k < |ms| && ms[k] == r
    modifies r.grp`size, r.grp`grp_first, ms`grp_prev, ms`grp_next
    ensures Listed(r.grp, Without(ms, k))
  {
    var grp := r.grp;
    assert LinkOk(grp, ms, k);
    if r.grp_next != null {
      r.grp_next.grp_prev := r.grp_prev;
    }
    if r.grp_prev != null {
      r.grp_prev.grp_next := r.grp_next;
    }
    if grp.grp_first == r {
      grp.grp_first := r.grp_next;
    }
    grp.size := grp.size - 1;
    ghost var rest := Without(ms, k);
    forall i | 0 <= i < |rest|
      ensures LinkOk(grp, rest, i)
    {
      assert old(LinkOk(grp, ms, if i < k then i else i + 1));
    }
  }

  // ----- Cancelling ---------------------------------------------------------------

  /** Who is a member of whom. */
  type Nesting = map<Request, seq<Request>>

  /** The nesting is closed, and members rank below their group. */
  ghost predicate Ranked(nest: Nesting, rank: map<Request, nat>) {
    && nest.Keys <= rank.Keys
    && (forall g, m :: g in nest && m in nest[g] ==> m in nest && rank[m] < rank[g])
  }

  /** The member lists are as the nesting says; nothing is asked of `size`, which
      cancelling does not look at. */
  ghost predicate AllChained(nest: Nesting, rank: map<Request, nat>)
    requires Ranked(nest, rank)
    reads nest.Keys`grp_first, nest.Keys`grp, nest.Keys`grp_prev, nest.Keys`grp_next
  {
    forall g :: g in nest ==> Chained(g, nest[g])
  }

  ghost function CancelledIn(nest: Nesting): set<Request>
    reads nest.Keys`cancelled
  {
    set x | x in nest && x.cancelled
  }

  /** `r` and its transitive members. */
  ghost function Below(nest: Nesting, rank: map<Request, nat>, r: Request): set<Request>
    requires Ranked(nest, rank) && r in nest
    decreases rank[r], |nest[r]| + 1
  {
    {r} + BelowTo(nest, rank, r, |nest[r]|)
  }

  /** The transitive members by way of the first `k` members. */
  ghost function BelowTo(nest: Nesting, rank: map<Request, nat>, g: Request, k: nat): set<Request>
    requires Ranked(nest, rank) && g in nest && k <= |nest[g]|
    decreases rank[g], k
  {
    if k == 0 then {}
    else
      assert nest[g][k - 1] in nest[g];
      BelowTo(nest, rank, g, k - 1) + Below(nest, rank, nest[g][k - 1])
  }

  /** `etp_cancel`: marks the request and all its transitive members, and
      nothing else; it ends on any acyclic nesting. */
  method Cancel(r: Request, ghost nest: Nesting, ghost rank: map<Request, nat>)
    requires Ranked(nest, rank) && r in nest && AllChained(nest, rank)
    modifies nest.Keys`cancelled
    ensures CancelledIn(nest) == old(CancelledIn(nest)) + Below(nest, rank, r)
    decreases rank[r], 1
  {
    ghost var before := CancelledIn(nest);
    r.cancelled := true;
    assert CancelledIn(nest) == before + {r};
    CancelMembers(r, nest, rank);
  }

  /** `etp_grp_cancel`: the transitive members, but not the group itself. */
  method CancelMembers(g: Request, ghost nest: Nesting, ghost rank: map<Request, nat>)
    requires Ranked(nest, rank) && g in nest && AllChained(nest, rank)
    modifies nest.Keys`cancelled
    ensures CancelledIn(nest) == old(CancelledIn(nest)) + BelowTo(nest, rank, g, |nest[g]|)
    decreases rank[g], 0
  {
    hide Below, AllChained, CancelledIn;
    FirstMember(g, nest, rank);
    var m := g.grp_first;
    ghost var k := 0;
    ghost var before := CancelledIn(nest);
    while m != null
      invariant k <= |nest[g]| && m == (if k == |nest[g]| then null else nest[g][k])
      invariant AllChained(nest, rank)
      invariant CancelledIn(nest) == before + BelowTo(nest, rank, g, k)
      decreases |nest[g]| - k
    {
      NextMember(g, nest, rank, k);
      ghost var done := BelowTo(nest, rank, g, k);
      Cancel(m, nest, rank);
      assert (before + done) + Below(nest, rank, nest[g][k]) == before + (done + Below(nest, rank, nest[g][k]));
      NextMember(g, nest, rank, k);
      m := m.grp_next;
      k := k + 1;
    }
  }

  lemma FirstMember(g: Request, nest: Nesting, rank: map<Request, nat>)
    requires Ranked(nest, rank) && g in nest && AllChained(nest, rank)
    ensures g.grp_first == (if nest[g] == [] then null else nest[g][0])
  {
    assert Chained(g, nest[g]);
  }

  lemma NextMember(g: Request, nest: Nesting, rank: map<Request, nat>, k: nat)
    requires Ranked(nest, rank) && g in nest && AllChained(nest, rank) && k < |nest[g]|
    ensures nest[g][k] in nest[g] && nest[g][k] in nest && rank[nest[g][k]] < rank[g]
    ensures nest[g][k].grp_next == (if k == |nest[g]| - 1 then null else nest[g][k + 1])
  {
    assert Chained(g, nest[g]);
    assert LinkOk(g, nest[g], k);
    assert nest[g][k] in nest[g];
  }

  /** Members of members, `k` steps down. */
  ghost predicate IsPath(nest: Nesting, path: seq<Request>)
    decreases |path|
  {
    && path != [] && path[0] in nest
    && (|path| > 1 ==> path[1] in nest[path[0]] && IsPath(nest, path[1..]))
  }

  lemma {:induction false} InBelowTo(nest: Nesting, rank: map<Request, nat>, g: Request, k: nat, i: nat)
    requires Ranked(nest, rank) && g in nest && i < k <= |nest[g]|
    ensures nest[g][i] in nest[g] && Below(nest, rank, nest[g][i]) <= BelowTo(nest, rank, g, k)
  {
    assert nest[g][i] in nest[g];
    if i < k - 1 {
      InBelowTo(nest, rank, g, k - 1, i);
    }
  }

  /** Whatever a path leads to is cancelled ... */
  lemma {:induction false} PathsAreBelow(nest: Nesting, rank: map<Request, nat>, path: seq<Request>)
    requires Ranked(nest, rank) && IsPath(nest, path)
    ensures path[|path| - 1] in Below(nest, rank, path[0])
    decreases |path|
  {
    if |path| > 1 {
      PathsAreBelow(nest, rank, path[1..]);
      var i :| 0 <= i < |nest[path[0]]| && nest[path[0]][i] == path[1];
      InBelowTo(nest, rank, path[0], |nest[path[0]]|, i);
    }
  }

  /** ... and nothing else is. */
  lemma {:induction false} BelowHasPath(nest: Nesting, rank: map<Request, nat>, r: Request, x: Request)
    returns (path: seq<Request>)
    requires Ranked(nest, rank) && r in nest && x in Below(nest, rank, r)
    ensures IsPath(nest, path) && path[0] == r && path[|path| - 1] == x
    decreases rank[r], |nest[r]| + 1
  {
    if x == r {
      path := [r];
    } else {
      path := BelowToHasPath(nest, rank, r, |nest[r]|, x);
    }
  }

  lemma {:induction false} BelowToHasPath(nest: Nesting, rank: map<Request, nat>, g: Request, k: nat, x: Request)
    returns (path: seq<Request>)
    requires Ranked(nest, rank) && g in nest && k <= |nest[g]| && x in BelowTo(nest, rank, g, k)
    ensures IsPath(nest, path) && path[0] == g && path[|path| - 1] == x
    decreases rank[g], k
  {
    var m := nest[g][k - 1];
    assert m in nest[g];
    if x in Below(nest, rank, m) {
      var rest := BelowHasPath(nest, rank, m, x);
      path := [g] + rest;
      assert path[1..] == rest;
    } else {
      path := BelowToHasPath(nest, rank, g, k - 1, x);
    }
  }
}
