/** The walk of propagate_umount: which places it has swept, and why it may skip what it skips. */
module UmountSweep {
  import opened Lists
  import opened Propagation
  import opened PropagationWalk
  import opened Umount

  /** __lookup_mnt: the first mount hashed at that place. */
  function Lookup(ghost S: set<Mount>, hash: seq<Mount>, m: Mount, d: Dentry): (r: Mount?)
    requires Within(hash, S)
    reads S`parent, S`mountpoint
    ensures r != null ==> r in S && r in hash && r.parent == m && r.mountpoint == d
    ensures r == null ==> forall i :: 0 <= i < |hash| ==> !(hash[i].parent == m && hash[i].mountpoint == d)
  {
    if hash == [] then null
    else if hash[0].parent == m && hash[0].mountpoint == d then hash[0]
    else
      assert Within(hash[1..], S);
      Lookup(S, hash[1..], m, d)
  }

  lemma DescendsReached(S: set<Mount>, m: Mount, y: Mount)
    requires WellFormed(S) && m in S && y in S && Descends(S, m, y)
    ensures Reached(S, m, y)
    decreases y.rank
  {
    if y.master != m {
      assert y.master.rank < y.rank;
      DescendsReached(S, m, y.master);
    }
  }

  lemma ReachedOnwards(S: set<Mount>, o: Mount, m: Mount, y: Mount)
    requires WellFormed(S) && o in S && m in S && y in S && Reached(S, o, m) && Reached(S, m, y)
    ensures Reached(S, o, y)
    decreases y.rank
  {
    if y in m.ring {
      assert y.ring == m.ring && y.master == m.master;
      if m in o.ring { assert m.ring == o.ring; }
    } else {
      assert y.master.rank < y.rank;
      ReachedOnwards(S, o, m, y.master);
    }
  }

  lemma ForestFirst(S: set<Mount>, top: int, m: Mount, i: nat)
    requires WellFormed(S) && RankedBelow(S, top) && m in S && i <= |m.slaves|
    ensures i == |m.slaves| ==> Forest(S, top, m, i) == []
    ensures i < |m.slaves| ==> m.slaves[i] in S
    ensures i < |m.slaves| ==>
      Forest(S, top, m, i) == [m.slaves[i]] + Below(S, top, m.slaves[i]) + Forest(S, top, m, i + 1)
  {
    if i < |m.slaves| { assert m.slaves[i] in m.slaves; }
  }

  lemma ForestEnd(S: set<Mount>, top: int, m: Mount, i: nat) returns (pre: seq<Mount>)
    requires WellFormed(S) && RankedBelow(S, top) && m in S && i < |m.slaves|
    ensures m.slaves[|m.slaves| - 1] in S
    ensures Forest(S, top, m, i) == pre + Below(S, top, m.slaves[|m.slaves| - 1])
    decreases |m.slaves| - i
  {
    hide *;
    ForestFirst(S, top, m, i);
    ForestFirst(S, top, m, i + 1);
    var s := m.slaves[i];
    if i + 1 == |m.slaves| {
      pre := [s];
    } else {
      var more := ForestEnd(S, top, m, i + 1);
      pre := [s] + Below(S, top, s) + more;
    }
  }

  lemma RestOfSlave(S: set<Mount>, top: int, s: Mount, origin: Mount)
    requires WellFormed(S) && RankedBelow(S, top) && origin in S && s in S && Receives(S, origin, s) && s !in origin.ring
    ensures s.master != null && s.master in S && Receives(S, origin, s.master) && s in s.master.slaves
    ensures IndexOf(s.master.slaves, s) + 1 <= |s.master.slaves|
    ensures Rest(S, top, s, origin) ==
      Forest(S, top, s.master, IndexOf(s.master.slaves, s) + 1) + Rest(S, top, s.master, origin)
  {
    hide Contiguous, RingsClosed, PeersAgree, NoDup, Forest;
    WalkStays(S, origin, s);
  }

  lemma LastReceives(S: set<Mount>, m: Mount, origin: Mount)
    requires WellFormed(S) && origin in S && m in S && Receives(S, origin, m) && m.slaves != []
    ensures var s := m.slaves[|m.slaves| - 1];
      s in S && s.master == m && Receives(S, origin, s) && s !in origin.ring && IndexOf(m.slaves, s) + 1 == |m.slaves|
  {
    hide Contiguous, RingsClosed, PeersAgree, NoDup, IndexOf;
    var s := m.slaves[|m.slaves| - 1];
    assert s in m.slaves;
    NoDupIndex(m.slaves, |m.slaves| - 1);
    WalkStays(S, origin, m);
    WalkStays(S, origin, s);
  }

  /** After the last slave of `m` the walk goes on exactly as after everything below `m`. */
  lemma LastSlave(S: set<Mount>, top: int, m: Mount, origin: Mount)
    requires WellFormed(S) && RankedBelow(S, top) && origin in S && m in S && Receives(S, origin, m)
    requires m.slaves != []
    ensures var s := m.slaves[|m.slaves| - 1];
      s in S && Receives(S, origin, s) && Rest(S, top, s, origin) == Rest(S, top, m, origin)
  {
    hide WellFormed, RankedBelow, Receives, Forest, Rest, IndexOf;
    var s := m.slaves[|m.slaves| - 1];
    LastReceives(S, m, origin);
    RestOfSlave(S, top, s, origin);
    ForestFirst(S, top, m, |m.slaves|);
    assert [] + Rest(S, top, m, origin) == Rest(S, top, m, origin);
  }

  /** skip_propagation_subtree passes over mounts below `m` only. */
  lemma SkipSubtree(S: set<Mount>, top: int, m: Mount, origin: Mount, left: seq<Mount>) returns (k: nat)
    requires At(S, top, m, origin, left) && !m.isNew && m.slaves != []
    ensures k <= |left| && m.slaves[|m.slaves| - 1] in S
    ensures At(S, top, m.slaves[|m.slaves| - 1], origin, left[k..])
    ensures forall y :: y in S && y in left && y !in left[k..] ==> Descends(S, m, y)
  {
    hide Closed, RingsClosed, PeersAgree, SlavesMatch, Contiguous, Ranked, RankedBelow, Forest, Rest, Receives, Descends, Below;
    var s := m.slaves[|m.slaves| - 1];
    LastSlave(S, top, m, origin);
    var pre := BelowEnd(S, top, m);
    k := |pre|;
    Reassociate(pre, Below(S, top, s), Rest(S, top, m, origin));
    assert left == pre + After(S, top, s, origin);
    assert left[k..] == After(S, top, s, origin);
    forall y | y in S && y in left && y !in left[k..] ensures Descends(S, m, y) {
      assert y in pre;
    }
  }

  lemma BelowEnd(S: set<Mount>, top: int, m: Mount) returns (pre: seq<Mount>)
    requires WellFormed(S) && RankedBelow(S, top) && m in S && !m.isNew && m.slaves != []
    ensures m.slaves[|m.slaves| - 1] in S && Below(S, top, m) == pre + Below(S, top, m.slaves[|m.slaves| - 1])
    ensures forall y :: y in S && y in pre ==> Descends(S, m, y)
  {
    hide Closed, RingsClosed, PeersAgree, SlavesMatch, Contiguous, Ranked, RankedBelow, Forest, Descends;
    pre := ForestEnd(S, top, m, 0);
    BelowContents(S, top, m);
    forall y | y in S && y in pre ensures Descends(S, m, y) { assert y in Below(S, top, m); }
  }

  // ---------------------------------------------------------------- what has been swept

  /** The mount at (y, d), if any, is in `done`. */
  ghost predicate SweptOne(S: set<Mount>, hash: seq<Mount>, done: set<Mount>, y: Mount, d: Dentry)
    requires Within(hash, S)
    reads S`parent, S`mountpoint
  {
    var c := Lookup(S, hash, y, d);
    c != null ==> c in done
  }

  /** So are all mounts that the unmounting at (o, d) propagates to. */
  ghost predicate Swept(S: set<Mount>, hash: seq<Mount>, done: set<Mount>, o: Mount, d: Dentry)
    requires WellFormed(S) && Within(hash, S) && o in S
    reads S`next, S`prev, S`master, S`slaves, S`ring, S`group, S`shared, S`rank, S`isNew, S`parent, S`mountpoint
  {
    forall y {:trigger Reached(S, o, y)} :: y in S && Reached(S, o, y) ==> SweptOne(S, hash, done, y, d)
  }

  ghost predicate ParentsIn(S: set<Mount>)
    reads S`parent
  {
    forall m {:trigger m.parent} :: m in S ==> m.parent in S
  }

  /** Whatever has been visited, its whole peer group and all their slaves have been. */
  ghost predicate AllSwept(S: set<Mount>, hash: seq<Mount>, done: set<Mount>, busy: set<Mount>)
    requires WellFormed(S) && Within(hash, S) && ParentsIn(S)
    reads S`next, S`prev, S`master, S`slaves, S`ring, S`group, S`shared, S`rank, S`isNew, S`parent, S`mountpoint
  {
    forall c {:trigger c in busy} :: c in busy && c in S ==> Swept(S, hash, done, c.parent, c.mountpoint)
  }

  datatype Sweep = Sweep(S: set<Mount>, hash: seq<Mount>, o: Mount, d: Dentry, busy0: set<Mount>)

  /** A sweep from (o, d) that has `left` to go. */
  ghost predicate Sweeping(w: Sweep, done: set<Mount>, busy: set<Mount>, left: seq<Mount>)
    requires WellFormed(w.S) && Within(w.hash, w.S) && ParentsIn(w.S) && w.o in w.S
    reads w.S`next, w.S`prev, w.S`master, w.S`slaves, w.S`ring, w.S`group, w.S`shared, w.S`rank, w.S`isNew,
          w.S`parent, w.S`mountpoint
  {
    && (forall c {:trigger c in busy} :: c in busy && c in w.S ==>
          c in w.busy0 || (c.mountpoint == w.d && c.parent !in left && Reached(w.S, w.o, c.parent)))
    && (forall y {:trigger Reached(w.S, w.o, y)} :: y in w.S && Reached(w.S, w.o, y) && y !in left ==>
          SweptOne(w.S, w.hash, done, y, w.d))
    && AllSwept(w.S, w.hash, done, w.busy0)
  }

  lemma SweepGrows(w: Sweep, done: set<Mount>, busy: set<Mount>, left: seq<Mount>, done': set<Mount>)
    requires WellFormed(w.S) && Within(w.hash, w.S) && ParentsIn(w.S) && w.o in w.S
    requires Sweeping(w, done, busy, left) && done <= done'
    ensures Sweeping(w, done', busy, left)
  {
    hide WellFormed, Lookup, Reached;
    forall c | c in w.busy0 && c in w.S ensures Swept(w.S, w.hash, done', c.parent, c.mountpoint) {
    }
  }

  /** One mount of the walk dealt with. */
  lemma SweepPass(w: Sweep, done: set<Mount>, busy: set<Mount>, left: seq<Mount>, done': set<Mount>, busy': set<Mount>)
    requires WellFormed(w.S) && Within(w.hash, w.S) && ParentsIn(w.S) && w.o in w.S
    requires Sweeping(w, done, busy, left) && done <= done'
    requires left != [] && NoDup(left) && left[0] in w.S && Reached(w.S, w.o, left[0])
    requires SweptOne(w.S, w.hash, done', left[0], w.d)
    requires var c := Lookup(w.S, w.hash, left[0], w.d); busy' <= busy + if c == null then {} else {c}
    ensures Sweeping(w, done', busy', left[1..])
  {
    hide WellFormed, Lookup, Reached;
    SweepGrows(w, done, busy, left, done');
    assert forall y :: y in left <==> y == left[0] || y in left[1..];
  }

  /** The mounts below a mount whose child has been visited before need not be visited again. */
  lemma SweepSkip(w: Sweep, done: set<Mount>, busy: set<Mount>, left: seq<Mount>, k: nat)
    requires WellFormed(w.S) && Within(w.hash, w.S) && ParentsIn(w.S) && w.o in w.S
    requires Sweeping(w, done, busy, left)
    requires left != [] && NoDup(left) && left[0] in w.S && Reached(w.S, w.o, left[0])
    requires SweptOne(w.S, w.hash, done, left[0], w.d)
    requires var c := Lookup(w.S, w.hash, left[0], w.d); c != null && c in busy
    requires 1 <= k <= |left| && forall y :: y in w.S && y in left[1..] && y !in left[k..] ==> Descends(w.S, left[0], y)
    ensures Sweeping(w, done, busy, left[k..])
  {
    hide RingsClosed, PeersAgree, SlavesMatch, Contiguous, NoDup, Lookup, Reached;
    var m := left[0];
    assert m in left;
    assert forall y :: y in left <==> y == m || y in left[1..];
    assert forall y :: y in left[k..] ==> y in left;
    forall y | y in w.S && Reached(w.S, w.o, y) && y !in left[k..] ensures SweptOne(w.S, w.hash, done, y, w.d) {
      if y in left && y != m {
        DescendsReached(w.S, m, y);
      }
    }
  }

  lemma SweepEnd(w: Sweep, done: set<Mount>, busy: set<Mount>)
    requires WellFormed(w.S) && Within(w.hash, w.S) && ParentsIn(w.S) && w.o in w.S
    requires Sweeping(w, done, busy, [])
    ensures AllSwept(w.S, w.hash, done, busy) && Swept(w.S, w.hash, done, w.o, w.d)
  {
    hide RingsClosed, PeersAgree, SlavesMatch, Contiguous, NoDup, Lookup, Reached, SweptOne;
    forall c | c in busy && c in w.S ensures Swept(w.S, w.hash, done, c.parent, c.mountpoint) {
      if c !in w.busy0 {
        forall y | y in w.S && Reached(w.S, c.parent, y) ensures SweptOne(w.S, w.hash, done, y, c.mountpoint) {
          ReachedOnwards(w.S, w.o, c.parent, y);
        }
      }
    }
  }

  lemma SweepStart(w: Sweep, top: int, done: set<Mount>, mnt: Mount, left: seq<Mount>)
    requires WellFormed(w.S) && Within(w.hash, w.S) && ParentsIn(w.S) && w.o in w.S
    requires mnt in w.S && mnt.parent == w.o && mnt.mountpoint == w.d
    requires AllSwept(w.S, w.hash, done, w.busy0) && SweptOne(w.S, w.hash, done, w.o, w.d)
    requires forall y :: y in left <==> y in w.S && y != w.o && Reached(w.S, w.o, y)
    ensures Sweeping(w, done, w.busy0 + {mnt}, left)
  {
    hide Lookup;
  }

  /** Unmounted already, or waiting to be restored. */
  ghost function Done(S: set<Mount>, p: Pending): set<Mount>
    reads S`umount
  {
    set c | c in S && (c.umount || c in p.restore)
  }

  /** Visited, as far as `mnt_umounting` tells. */
  ghost function Busy(S: set<Mount>, p: Pending): set<Mount> {
    set c | c in S && (c in p.restore || c in p.visited)
  }

  /** The unmounting of `mnt` propagates to `c`. */
  ghost predicate Hears(S: set<Mount>, hash: seq<Mount>, mnt: Mount, c: Mount)
    requires WellFormed(S) && Within(hash, S) && ParentsIn(S) && mnt in S && c in S
    reads S`next, S`prev, S`master, S`slaves, S`ring, S`group, S`shared, S`rank, S`isNew, S`parent, S`mountpoint
  {
    Reached(S, mnt.parent, c.parent) && c == Lookup(S, hash, c.parent, mnt.mountpoint)
  }

  lemma VisitedCollecting(S: set<Mount>, p: Pending, was: set<Mount>, cand: set<Mount>, c: Mount)
    requires Collecting(S, p, was, cand, null) && c in S && c.umount
    ensures Collecting(S, p.(visited := p.visited + [c]), was, cand, null)
  {
    hide NoDup, Within, Settled, Bare;
  }

  lemma NotInTheWay(S: set<Mount>, p: Pending, was: set<Mount>, cand: set<Mount>, but: Mount)
    requires Collecting(S, p, was, cand, but) && but in S
    ensures but !in p.restore && but !in p.visited ==> Collecting(S, p, was, cand, null)
    ensures but in p.restore || but in p.visited ==> (but.umount || but in cand) && (but.umount || but in p.restore)
    ensures ParentsIn(S)
  {
    hide NoDup, Within, Bare;
  }

  lemma ParentAbove(S: set<Mount>, p: Pending, was: set<Mount>, cand: set<Mount>, but: Mount?, c: Mount)
    requires Collecting(S, p, was, cand, but) && c in S && c in cand
    ensures c.parent in S && 0 <= c.parent.depth < c.depth
  {
    hide NoDup, Within, Bare;
  }

  /** The loop around __propagate_umount: a candidate, then its parents while progress is made. */
  method UmountUpwards(ghost S: set<Mount>, first: Mount, p: Pending, ghost was: set<Mount>, ghost cand: set<Mount>)
    returns (q: Pending)
    requires Collecting(S, p, was, cand, null) && first in S && first in cand
    modifies S`umount, S`marked, S`mounts
    ensures Collecting(S, q, was, cand, null)
    ensures Advanced(S, p, q, first)
  {
    hide Settled, Bare, Accounted, NoDup, Within, Marks, Listed, LocksKept, Tree, OnlyCandidates, Collecting;
    var child, progress := first, true;
    StillSettled(S, p, was, cand, first);
    q, progress := TryUmount(S, child, p, was, cand);
    while progress
      invariant child in S && (progress ==> child in cand)
      invariant Collecting(S, q, was, cand, if progress then child.parent else null)
      invariant Advanced(S, p, q, first)
      decreases child.depth
    {
      ParentAbove(S, q, was, cand, child.parent, child);
      child := child.parent;
      NotInTheWay(S, q, was, cand, child);
      if child !in q.restore && child !in q.visited { break; }
      q, progress := TryUmount(S, child, q, was, cand);
    }
  }

  lemma StillSettled(S: set<Mount>, p: Pending, was: set<Mount>, cand: set<Mount>, but: Mount)
    requires Collecting(S, p, was, cand, null)
    ensures Collecting(S, p, was, cand, but)
  {
    hide NoDup, Within, Bare;
  }
}
