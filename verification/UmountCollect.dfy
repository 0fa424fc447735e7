/** The first half of propagate_umount: every candidate is looked at. */
module UmountCollect {
  import opened Lists
  import opened Propagation
  import opened PropagationWalk
  import opened Umount
  import opened UmountSweep

  /** What does not change while candidates are collected. */
  ghost predicate Fixed(S: set<Mount>, top: int, hash: seq<Mount>)
    reads S`next, S`prev, S`master, S`slaves, S`ring, S`group, S`shared, S`rank, S`parent
  {
    WellFormed(S) && RankedBelow(S, top) && Within(hash, S) && ParentsIn(S)
  }

  /** Everything the unmounting of `mnt` propagates to is a candidate. */
  ghost predicate Hopefuls(S: set<Mount>, hash: seq<Mount>, mnt: Mount, cand: set<Mount>)
    requires WellFormed(S) && Within(hash, S) && ParentsIn(S) && mnt in S
    reads S`next, S`prev, S`master, S`slaves, S`ring, S`group, S`shared, S`rank, S`isNew, S`parent, S`mountpoint
  {
    forall c {:trigger c in cand} :: c in S && Hears(S, hash, mnt, c) ==> c in cand
  }

  lemma HeardAt(S: set<Mount>, hash: seq<Mount>, mnt: Mount, cand: set<Mount>, m: Mount)
    requires WellFormed(S) && Within(hash, S) && ParentsIn(S) && mnt in S && m in S
    requires Hopefuls(S, hash, mnt, cand) && Reached(S, mnt.parent, m)
    ensures var c := Lookup(S, hash, m, mnt.mountpoint); c != null ==> c in S && c in cand
  {
    hide WellFormed, Reached;
    var c := Lookup(S, hash, m, mnt.mountpoint);
    if c != null { assert Hears(S, hash, mnt, c); }
  }

  lemma BusyIsDone(S: set<Mount>, p: Pending, was: set<Mount>, cand: set<Mount>)
    requires Collecting(S, p, was, cand, null)
    ensures Busy(S, p) <= Done(S, p)
  {
    hide NoDup, Within, Settled, Tree, Listed, Marks, LocksKept;
  }

  /** One stop of the walk where the child has not been visited before. */
  method Visit(ghost w: Sweep, mnt: Mount, m: Mount, child: Mount?, p: Pending, ghost was: set<Mount>,
               ghost cand: set<Mount>, ghost left: seq<Mount>)
    returns (q: Pending)
    requires WellFormed(w.S) && Within(w.hash, w.S) && ParentsIn(w.S) && w.o in w.S && mnt in w.S
    requires mnt.parent == w.o && mnt.mountpoint == w.d && Hopefuls(w.S, w.hash, mnt, cand)
    requires Collecting(w.S, p, was, cand, null)
    requires left != [] && NoDup(left) && left[0] == m && m in w.S && Reached(w.S, w.o, m)
    requires child == Lookup(w.S, w.hash, m, w.d)
    requires Sweeping(w, Done(w.S, p), Busy(w.S, p), left)
    modifies w.S`umount, w.S`marked, w.S`mounts
    ensures Collecting(w.S, q, was, cand, null)
    ensures Sweeping(w, Done(w.S, q), Busy(w.S, q), left[1..])
    ensures old(Done(w.S, p)) <= Done(w.S, q)
  {
    hide WellFormed, Reached, Lookup, Sweeping, Collecting, SweptOne, Hopefuls, NoDup, Within;
    q := p;
    HeardAt(w.S, w.hash, mnt, cand, m);
    if child != null {
      if child.umount {
        q := p.(visited := p.visited + [child]);
        VisitedCollecting(w.S, p, was, cand, child);
      } else {
        q := UmountUpwards(w.S, child, p, was, cand);
      }
    }
    assert SweptOne(w.S, w.hash, Done(w.S, q), m, w.d) by { NowSwept(w.S, w.hash, Done(w.S, q), m, w.d); }
    SweepPass(w, old(Done(w.S, p)), Busy(w.S, p), left, Done(w.S, q), Busy(w.S, q));
  }

  lemma NowSwept(S: set<Mount>, hash: seq<Mount>, done: set<Mount>, y: Mount, d: Dentry)
    requires Within(hash, S)
    requires Lookup(S, hash, y, d) != null ==> Lookup(S, hash, y, d) in done
    ensures SweptOne(S, hash, done, y, d)
  {
  }

  /** The stops that skip_propagation_subtree leaves out, together with the one it is called at. */
  lemma Skip(w: Sweep, top: int, m: Mount, child: Mount, p: Pending, was: set<Mount>, cand: set<Mount>, left: seq<Mount>)
    returns (k: nat)
    requires Fixed(w.S, top, w.hash) && w.o in w.S && m in w.S && Collecting(w.S, p, was, cand, null)
    requires left != [] && NoDup(left) && left[0] == m && Reached(w.S, w.o, m) && At(w.S, top, m, w.o, left[1..])
    requires child == Lookup(w.S, w.hash, m, w.d) && child in Busy(w.S, p)
    requires Sweeping(w, Done(w.S, p), Busy(w.S, p), left)
    ensures 1 <= k <= |left| && Sweeping(w, Done(w.S, p), Busy(w.S, p), left[k..])
    ensures if !m.isNew && m.slaves != []
      then m.slaves[|m.slaves| - 1] in w.S && At(w.S, top, m.slaves[|m.slaves| - 1], w.o, left[k..])
      else left[k..] == left[1..]
  {
    hide WellFormed, Reached, Lookup, Sweeping, Collecting, NoDup, At, Descends;
    BusyIsDone(w.S, p, was, cand);
    k := 1;
    if !m.isNew && m.slaves != [] {
      var j := SkipSubtree(w.S, top, m, w.o, left[1..]);
      k := j + 1;
      assert left[1..][j..] == left[k..];
    }
    SweepSkip(w, Done(w.S, p), Busy(w.S, p), left, k);
  }

  lemma HearsItself(S: set<Mount>, o: Mount)
    requires WellFormed(S) && o in S
    ensures o in o.ring && Receives(S, o, o)
  {
  }

  lemma StartWalk(S: set<Mount>, top: int, o: Mount) returns (all: seq<Mount>)
    requires WellFormed(S) && RankedBelow(S, top) && o in S
    ensures At(S, top, o, o, all) && Ahead(S, o, all)
    ensures forall y :: y in all <==> y in S && y != o && Reached(S, o, y)
  {
    hide RingsClosed, PeersAgree, SlavesMatch, Contiguous, RankedBelow, NoDup, Reached, After, Receives;
    HearsItself(S, o);
    WalkMeetsAllOnce(S, top, o);
    all := After(S, top, o, o);
    assert NoDup(all);
    assert forall y :: y in all ==> y in S && Reached(S, o, y);
  }

  ghost predicate Ahead(S: set<Mount>, o: Mount, left: seq<Mount>)
    requires WellFormed(S) && o in S
    reads S`next, S`prev, S`master, S`slaves, S`ring, S`group, S`shared, S`rank, S`isNew
  {
    NoDup(left) && forall y :: y in left ==> y in S && Reached(S, o, y)
  }

  lemma StillAhead(S: set<Mount>, o: Mount, left: seq<Mount>, k: nat)
    requires WellFormed(S) && o in S && Ahead(S, o, left) && k <= |left|
    ensures Ahead(S, o, left[k..])
    ensures left != [] ==> NoDup(left) && left[0] in S && Reached(S, o, left[0])
  {
    hide WellFormed, Reached;
    assert left != [] ==> left[0] in left;
  }

  lemma WasUnmounted(S: set<Mount>, p: Pending, was: set<Mount>, cand: set<Mount>, m: Mount)
    requires Collecting(S, p, was, cand, null) && m in S && m in was
    ensures m.umount
  {
    hide NoDup, Within, Settled, Tree, Listed, Marks, LocksKept;
  }

  lemma SpreadStart(S: set<Mount>, top: int, hash: seq<Mount>, mnt: Mount, p: Pending, was: set<Mount>, cand: set<Mount>)
    returns (left: seq<Mount>, w: Sweep)
    requires Fixed(S, top, hash) && mnt in S && mnt in was && Collecting(S, p, was, cand, null)
    requires AllSwept(S, hash, Done(S, p), Busy(S, p)) && SweptOne(S, hash, Done(S, p), mnt.parent, mnt.mountpoint)
    ensures mnt.parent in S && At(S, top, mnt.parent, mnt.parent, left) && Ahead(S, mnt.parent, left)
    ensures w == Sweep(S, hash, mnt.parent, mnt.mountpoint, Busy(S, p))
    ensures var q := p.(visited := p.visited + [mnt]);
      Done(S, q) == Done(S, p) && Collecting(S, q, was, cand, null) && Sweeping(w, Done(S, q), Busy(S, q), left)
  {
    hide WellFormed, RankedBelow, Reached, Lookup, Sweeping, Collecting, SweptOne, Swept, AllSwept, NoDup, Within, At, Ahead;
    left := StartWalk(S, top, mnt.parent);
    w := Sweep(S, hash, mnt.parent, mnt.mountpoint, Busy(S, p));
    SweepStart(w, top, Done(S, p), mnt, left);
    var q := p.(visited := p.visited + [mnt]);
    WasUnmounted(S, p, was, cand, mnt);
    VisitedCollecting(S, p, was, cand, mnt);
    assert Done(S, q) == Done(S, p);
    assert Busy(S, q) == Busy(S, p) + {mnt};
  }

  /** The walk for one mount of the list. */
  method Spread(ghost S: set<Mount>, ghost top: int, hash: seq<Mount>, mnt: Mount, p: Pending, ghost was: set<Mount>,
                ghost cand: set<Mount>)
    returns (q: Pending)
    requires Fixed(S, top, hash) && mnt in S && mnt in was && Hopefuls(S, hash, mnt, cand)
    requires Collecting(S, p, was, cand, null)
    requires AllSwept(S, hash, Done(S, p), Busy(S, p)) && SweptOne(S, hash, Done(S, p), mnt.parent, mnt.mountpoint)
    modifies S`umount, S`marked, S`mounts
    ensures Collecting(S, q, was, cand, null)
    ensures AllSwept(S, hash, Done(S, q), Busy(S, q)) && Swept(S, hash, Done(S, q), mnt.parent, mnt.mountpoint)
    ensures old(Done(S, p)) <= Done(S, q)
  {
    hide WellFormed, RankedBelow, Reached, Lookup, Sweeping, Collecting, SweptOne, Swept, AllSwept, Hopefuls, NoDup, Within, At, Ahead;
    var parent := mnt.parent;
    ghost var left, w := SpreadStart(S, top, hash, mnt, p, was, cand);
    q := p.(visited := p.visited + [mnt]);
    var m := PropagationNext(S, top, parent, parent, left);
    while m != null
      invariant Collecting(S, q, was, cand, null)
      invariant m == null ==> left == []
      invariant m != null ==> left != [] && left[0] == m && At(S, top, m, parent, left[1..])
      invariant Ahead(S, parent, left)
      invariant Sweeping(w, Done(S, q), Busy(S, q), left)
      invariant old(Done(S, p)) <= Done(S, q)
      decreases |left|
    {
      StillAhead(S, parent, left, 1);
      var child := Lookup(S, hash, m, mnt.mountpoint);
      if child != null && (child in q.restore || child in q.visited) {
        ghost var k := Skip(w, top, m, child, q, was, cand, left);
        if !m.isNew && m.slaves != [] { m := m.slaves[|m.slaves| - 1]; }
        StillAhead(S, parent, left, k);
        left := left[k..];
      } else {
        q := Visit(w, mnt, m, child, q, was, cand, left);
        left := left[1..];
      }
      m := PropagationNext(S, top, m, parent, left);
    }
    SweepEnd(w, Done(S, q), Busy(S, q));
  }

  lemma SweptGrows(S: set<Mount>, hash: seq<Mount>, done: set<Mount>, done': set<Mount>, o: Mount, d: Dentry)
    requires WellFormed(S) && Within(hash, S) && o in S && done <= done'
    ensures Swept(S, hash, done, o, d) ==> Swept(S, hash, done', o, d)
    ensures SweptOne(S, hash, done, o, d) ==> SweptOne(S, hash, done', o, d)
  {
    hide RingsClosed, PeersAgree, SlavesMatch, Contiguous, Lookup, Reached;
  }

  /** The mounts of the list have been flagged, and so has what is mounted at their places; what they propagate to are candidates. */
  ghost predicate ToSpread(S: set<Mount>, hash: seq<Mount>, done: set<Mount>, list: seq<Mount>, was: set<Mount>, cand: set<Mount>)
    requires WellFormed(S) && Within(hash, S) && ParentsIn(S) && Within(list, S)
    reads S`next, S`prev, S`master, S`slaves, S`ring, S`group, S`shared, S`rank, S`isNew, S`parent, S`mountpoint
  {
    forall i {:trigger list[i]} :: 0 <= i < |list| ==>
      list[i] in was && Hopefuls(S, hash, list[i], cand) && SweptOne(S, hash, done, list[i].parent, list[i].mountpoint)
  }

  /** The candidates of the mounts from place `i` on have all been looked at. */
  ghost predicate AllSpread(S: set<Mount>, hash: seq<Mount>, done: set<Mount>, list: seq<Mount>, i: nat)
    requires WellFormed(S) && Within(hash, S) && ParentsIn(S) && Within(list, S)
    reads S`next, S`prev, S`master, S`slaves, S`ring, S`group, S`shared, S`rank, S`isNew, S`parent, S`mountpoint
  {
    forall j {:trigger list[j]} :: i <= j < |list| ==> Swept(S, hash, done, list[j].parent, list[j].mountpoint)
  }

  lemma SpreadGrows(S: set<Mount>, hash: seq<Mount>, done: set<Mount>, done': set<Mount>, list: seq<Mount>, i: nat)
    requires WellFormed(S) && Within(hash, S) && ParentsIn(S) && Within(list, S) && done <= done'
    requires AllSpread(S, hash, done, list, i)
    ensures AllSpread(S, hash, done', list, i)
  {
    hide WellFormed, Swept;
    forall j {:trigger list[j]} | i <= j < |list| ensures Swept(S, hash, done', list[j].parent, list[j].mountpoint) {
      SweptGrows(S, hash, done, done', list[j].parent, list[j].mountpoint);
    }
  }

  /** The first loop of propagate_umount. */
  method Collect(ghost S: set<Mount>, ghost top: int, hash: seq<Mount>, list: seq<Mount>, ghost was: set<Mount>, ghost cand: set<Mount>)
    returns (q: Pending)
    requires Fixed(S, top, hash) && Within(list, S)
    requires Collecting(S, Pending([], [], []), was, cand, null)
    requires ToSpread(S, hash, Done(S, Pending([], [], [])), list, was, cand)
    modifies S`umount, S`marked, S`mounts
    ensures Collecting(S, q, was, cand, null)
    ensures AllSpread(S, hash, Done(S, q), list, 0)
  {
    hide WellFormed, RankedBelow, Reached, Lookup, Collecting, SweptOne, Swept, AllSwept, Hopefuls, NoDup;
    q := Pending([], [], []);
    assert AllSwept(S, hash, Done(S, q), Busy(S, q)) by { NothingBusy(S, hash, Done(S, q), Busy(S, q)); }
    ghost var done0 := Done(S, q);
    var i := |list|;
    while i > 0
      invariant 0 <= i <= |list|
      invariant Collecting(S, q, was, cand, null)
      invariant AllSwept(S, hash, Done(S, q), Busy(S, q))
      invariant AllSpread(S, hash, Done(S, q), list, i)
      invariant ToSpread(S, hash, done0, list, was, cand)
      invariant done0 <= Done(S, q)
    {
      i := i - 1;
      var mnt := list[i];
      if mnt in q.restore || mnt in q.visited {
        AlreadySwept(S, hash, Done(S, q), Busy(S, q), mnt);
      } else {
        ghost var done := Done(S, q);
        SweptGrows(S, hash, done0, done, mnt.parent, mnt.mountpoint);
        q := Spread(S, top, hash, mnt, q, was, cand);
        SpreadGrows(S, hash, done, Done(S, q), list, i + 1);
      }
    }
  }

  lemma NothingBusy(S: set<Mount>, hash: seq<Mount>, done: set<Mount>, busy: set<Mount>)
    requires WellFormed(S) && Within(hash, S) && ParentsIn(S) && busy == {}
    ensures AllSwept(S, hash, done, busy)
  {
  }

  lemma AlreadySwept(S: set<Mount>, hash: seq<Mount>, done: set<Mount>, busy: set<Mount>, mnt: Mount)
    requires WellFormed(S) && Within(hash, S) && ParentsIn(S) && AllSwept(S, hash, done, busy) && mnt in busy && mnt in S
    ensures Swept(S, hash, done, mnt.parent, mnt.mountpoint)
  {
    hide Swept;
  }
}
