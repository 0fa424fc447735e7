/** propagate_umount as a whole: exactly which mounts go, and exactly where the others end up. */
module PropagateUmount {
  import opened Lists
  import opened Propagation
  import opened PropagationWalk
  import opened Umount
  import opened UmountSweep
  import opened UmountCollect
  import opened UmountFinish

  /** Something that is still mounted on `c`, other than a cover, holds it. */
  ghost predicate Held(S: set<Mount>, c: Mount)
    reads S`parent, S`umount, S`mountpoint, c`root
  {
    exists x {:trigger x.mountpoint} :: x in S && x.parent == c && x != c && !x.umount && x.mountpoint != c.root
  }

  /** A lock gives way only when the parent goes as well and `c` does not cover it. */
  ghost predicate Unlockable(S: set<Mount>, c: Mount)
    reads S`parent, S`umount, S`mountpoint, S`root, S`locked
    requires c in S && c.parent in S
  {
    c.locked ==> c.parent.umount && c.mountpoint != c.parent.root
  }

  /** What was mounted does not hang below what was not. */
  ghost predicate Apart(S: set<Mount>, was: set<Mount>)
    reads S`parent
  {
    forall m {:trigger m.parent} :: m in S && m !in was ==> m.parent !in was
  }

  /** The state between umount_list and restore_mounts. */
  ghost predicate Decided(S: set<Mount>, p: Pending, was: set<Mount>, cand: set<Mount>, waiting: seq<Mount>)
    reads S`parent, S`mounts, S`depth, S`umount, S`marked, S`mountpoint, S`root, S`locked
  {
    && Working(S, p, was, cand) && Cleared(S, p, p.umounts, []) && Settled(S, waiting, null) && Apart(S, was)
    && (forall c {:trigger c in cand} :: c in S && c in cand ==> (c.umount || c in waiting) && c.parent != c)
  }

  lemma GoneExactly(S: set<Mount>, p: Pending, was: set<Mount>, cand: set<Mount>, waiting: seq<Mount>, c: Mount)
    requires Decided(S, p, was, cand, waiting) && c in S && c !in was
    ensures c.parent in S && (c.umount <==> c in cand && !Held(S, c) && Unlockable(S, c))
  {
    hide NoDup, Within;
    if c.umount {
      assert c in p.umounts;
    } else if c in cand && !c.marked {
      assert !Bare(S, c);
    } else if c in cand {
      assert c.locked;
    }
  }

  /**
   Candidates that could go together: what is mounted on one of them, other than a cover, is among them, and so is the
   parent of one that is locked, unless it is covered by it.
   */
  ghost predicate CouldGo(S: set<Mount>, was: set<Mount>, cand: set<Mount>, X: set<Mount>)
    reads S`parent, S`mountpoint, S`root, S`locked
  {
    && X <= S && X <= cand && X !! was
    && (forall c, x {:trigger c in X, x.parent} ::
          c in X && x in S && x.parent == c && x != c && x !in was && x.mountpoint != c.root ==> x in X)
    && (forall c {:trigger c.locked} :: c in X && c.locked ==> c.parent in X && c.mountpoint != c.parent.root)
  }

  lemma HeldByChild(S: set<Mount>, p: Pending, was: set<Mount>, cand: set<Mount>, waiting: seq<Mount>, X: set<Mount>, c: Mount)
    returns (x: Mount)
    requires Decided(S, p, was, cand, waiting) && CouldGo(S, was, cand, X) && c in X && !c.umount && !c.marked
    ensures x in X && x.depth > c.depth && !x.umount && !x.marked
  {
    hide NoDup, Within, Cleared, LocksKept;
    assert !Bare(S, c);
    x :| x in S && x in c.mounts && x.mountpoint != c.root && !x.marked;
  }

  ghost function Deeper(S: set<Mount>, c: Mount): set<Mount>
    reads S`depth, c`depth
  {
    set m | m in S && m.depth > c.depth
  }

  /** Each of them is gone or marked: otherwise one deeper down would not be. */
  lemma {:induction false} GoneOrMarked(S: set<Mount>, p: Pending, was: set<Mount>, cand: set<Mount>, waiting: seq<Mount>,
                                        X: set<Mount>, c: Mount)
    requires Decided(S, p, was, cand, waiting) && CouldGo(S, was, cand, X) && c in X
    ensures c.umount || c.marked
    decreases Deeper(S, c)
  {
    hide Decided, CouldGo;
    if !c.umount && !c.marked {
      var x := HeldByChild(S, p, was, cand, waiting, X, c);
      InX(S, was, cand, X, x);
      assert x in Deeper(S, c) && x !in Deeper(S, x) && Deeper(S, x) <= Deeper(S, c);
      GoneOrMarked(S, p, was, cand, waiting, X, x);
    }
  }

  lemma InX(S: set<Mount>, was: set<Mount>, cand: set<Mount>, X: set<Mount>, x: Mount)
    requires CouldGo(S, was, cand, X) && x in X
    ensures x in S
  {
  }

  /** All of them are gone: from the top down, what was only marked went with its parent. */
  lemma {:induction false} AllGone(S: set<Mount>, p: Pending, was: set<Mount>, cand: set<Mount>, waiting: seq<Mount>,
                                   X: set<Mount>, c: Mount)
    requires Decided(S, p, was, cand, waiting) && CouldGo(S, was, cand, X) && c in X
    ensures c.umount
    decreases c.depth
  {
    hide CouldGo;
    GoneOrMarked(S, p, was, cand, waiting, X, c);
    if !c.umount {
      WithParent(S, p, was, cand, waiting, X, c);
      AllGone(S, p, was, cand, waiting, X, c.parent);
    }
  }

  lemma WithParent(S: set<Mount>, p: Pending, was: set<Mount>, cand: set<Mount>, waiting: seq<Mount>, X: set<Mount>, c: Mount)
    requires Decided(S, p, was, cand, waiting) && CouldGo(S, was, cand, X) && c in X && c.marked && !c.umount
    ensures c.parent in X && 0 <= c.parent.depth < c.depth && !c.parent.umount
  {
    hide NoDup, Within, Settled, Bare;
  }

  lemma NowGrounded(S: set<Mount>, p: Pending, was: set<Mount>, cand: set<Mount>, waiting: seq<Mount>)
    requires Decided(S, p, was, cand, waiting)
    ensures Tree(S) && Listed(S) && Grounded(S, p.umounts) && NoDup(p.restore) && Within(p.restore, S)
    ensures forall m {:trigger m.umount} :: m in S && m in p.restore ==> !m.umount
    ensures forall m {:trigger m.umount} :: m in S && !m.umount && m !in p.restore ==> !m.parent.umount
    ensures forall m {:trigger m.marked} :: m in S && m.marked ==> m in p.restore
    ensures forall m {:trigger m.umount} :: m in S ==> (m.umount <==> m in was || m in p.umounts)
    ensures NoDup(p.umounts) && forall m :: m in S && m in p.umounts ==> m !in was
  {
    hide NoDup, Within, Settled, Bare;
  }

  /** What umount_tree hands over: its mounts are flagged and off the lists, nothing mounted is left below them, no marks. */
  ghost predicate Ready(S: set<Mount>, top: int, hash: seq<Mount>, list: seq<Mount>)
    reads S
  {
    && Fixed(S, top, hash) && Within(list, S) && Tree(S) && Listed(S) && Sound(S)
    && (forall m {:trigger m.marked} :: m in S ==> !m.marked)
    && (forall i {:trigger hash[i]} :: 0 <= i < |hash| ==> hash[i].parent != hash[i])
    && (forall i {:trigger list[i]} :: 0 <= i < |list| ==>
          list[i].umount && SweptOne(S, hash, Done(S, Pending([], [], [])), list[i].parent, list[i].mountpoint))
  }

  /** The mounts to which the unmounting of one of the list propagates. */
  ghost function Candidates(S: set<Mount>, hash: seq<Mount>, list: seq<Mount>): set<Mount>
    requires WellFormed(S) && Within(hash, S) && ParentsIn(S) && Within(list, S)
    reads S`next, S`prev, S`master, S`slaves, S`ring, S`group, S`shared, S`rank, S`isNew, S`parent, S`mountpoint
  {
    set c | c in S && exists i {:trigger list[i]} :: 0 <= i < |list| && Hears(S, hash, list[i], c)
  }

  ghost function Unmounted(S: set<Mount>): set<Mount>
    reads S`umount
  {
    set m | m in S && m.umount
  }

  lemma StartCollecting(S: set<Mount>, top: int, hash: seq<Mount>, list: seq<Mount>)
    requires Ready(S, top, hash, list)
    ensures var cand := Candidates(S, hash, list);
      && Collecting(S, Pending([], [], []), Unmounted(S), cand, null) && Apart(S, Unmounted(S))
      && ToSpread(S, hash, Done(S, Pending([], [], [])), list, Unmounted(S), cand)
  {
    hide RingsClosed, PeersAgree, SlavesMatch, Contiguous, Reached, NoDup, SweptOne, RankedBelow;
    var p, was, cand := Pending([], [], []), Unmounted(S), Candidates(S, hash, list);
    EmptyNoDup<Mount>();
    assert Accounted(S, p, was);
    assert Marks(S, p, cand);
    assert forall c {:trigger c.parent} :: c in S && c in cand ==> c.parent != c;
    forall i {:trigger list[i]} | 0 <= i < |list| ensures list[i] in was && Hopefuls(S, hash, list[i], cand) {
      assert list[i].umount;
    }
  }

  lemma AllLookedAt(S: set<Mount>, hash: seq<Mount>, list: seq<Mount>, p: Pending, c: Mount)
    requires WellFormed(S) && Within(hash, S) && ParentsIn(S) && Within(list, S)
    requires AllSpread(S, hash, Done(S, p), list, 0) && c in S && c in Candidates(S, hash, list)
    ensures c.umount || c in p.restore
  {
    hide RingsClosed, PeersAgree, SlavesMatch, Contiguous, Reached, NoDup, Lookup;
    var i :| 0 <= i < |list| && Hears(S, hash, list[i], c);
    assert Swept(S, hash, Done(S, p), list[i].parent, list[i].mountpoint);
    assert SweptOne(S, hash, Done(S, p), c.parent, list[i].mountpoint);
  }

  // ---------------------------------------------------------------- against the state before the call

  /** Something that was mounted on `c`, other than a cover, stays. */
  twostate predicate StillHeld(S: set<Mount>, c: Mount)
    reads S`umount, c`root
  {
    exists x {:trigger x.umount} :: x in S && old(x.parent) == c && x != c && !x.umount && old(x.mountpoint) != c.root
  }

  /** `c` was not locked, or its parent went as well and it did not cover it. */
  twostate predicate LockGaveWay(S: set<Mount>, c: Mount)
    requires c in S && old(c.parent) in S
    reads S`umount
  {
    old(c.locked) ==> old(c.parent).umount && old(c.mountpoint != c.parent.root)
  }

  /** Exactly these mounts have been unmounted, each once. */
  twostate predicate UnmountedExactly(S: set<Mount>, cand: set<Mount>, new gone: seq<Mount>)
    reads S`umount, S`root
  {
    && NoDup(gone)
    && (forall c {:trigger c.umount} :: c in S && old(c.umount) ==> c.umount && c !in gone)
    && (forall c {:trigger c.umount} :: c in S && old(!c.umount) ==>
          old(c.parent) in S && (c.umount <==> c in gone)
          && (c.umount <==> c in cand && !StillHeld(S, c) && LockGaveWay(S, c)))
  }

  /** Whatever else could have gone together has gone: what went is the largest set that could. */
  twostate predicate NothingElse(S: set<Mount>, cand: set<Mount>)
    reads S`umount
  {
    forall X: set<Mount> {:trigger old(CouldGo(S, Unmounted(S), cand, X))} ::
      X <= S && old(CouldGo(S, Unmounted(S), cand, X)) ==> forall c :: c in X ==> c.umount
  }

  /**
   `way` leads from the old parent of `c` upwards, one old parent after the other, over mounts that went, to the first whose
   own parent stays; `c` has taken the place of that mount.
   */
  twostate predicate TookPlace(S: set<Mount>, c: Mount, way: seq<Mount>)
    requires Within(way, S)
    reads S`umount, c`parent, c`mountpoint
  {
    && |way| > 0 && way[0] == old(c.parent)
    && (forall i {:trigger way[i]} :: 0 <= i < |way| ==> way[i].umount)
    && (forall i {:trigger way[i + 1]} :: 0 <= i < |way| - 1 ==> way[i + 1] == old(way[i].parent))
    && c.parent == old(way[|way| - 1].parent) && c.parent in S && !c.parent.umount
    && c.mountpoint == old(way[|way| - 1].mountpoint)
  }

  twostate predicate MovedUp(S: set<Mount>, c: Mount)
    reads S`umount, c`parent, c`mountpoint
  {
    exists way: seq<Mount> :: Within(way, S) && TookPlace(S, c, way)
  }

  /** What went and what had a parent that stays has not moved; the rest has taken the place of what went above it. */
  twostate predicate LandedExactly(S: set<Mount>)
    reads S`umount, S`parent, S`mountpoint
  {
    forall c {:trigger c.parent} {:trigger c.mountpoint} :: c in S ==>
      && old(c.parent) in S
      && if c.umount || !old(c.parent).umount then c.parent == old(c.parent) && c.mountpoint == old(c.mountpoint)
         else MovedUp(S, c)
  }

  datatype Call = Call(S: set<Mount>, was: set<Mount>, cand: set<Mount>)

  twostate lemma HeldAsBefore(b: InSet)
    requires SameShape(b.S) && b.m in b.S && b.m.parent in b.S
    ensures Held(b.S, b.m) == StillHeld(b.S, b.m) && Unlockable(b.S, b.m) == LockGaveWay(b.S, b.m)
  {
    var S, c := b.S, b.m;
    if Held(S, c) {
      var x :| x in S && x.parent == c && x != c && !x.umount && x.mountpoint != c.root;
      assert x in S && old(x.parent) == c && x != c && !x.umount && old(x.mountpoint) != c.root;
    }
    if StillHeld(S, c) {
      var x :| x in S && old(x.parent) == c && x != c && !x.umount && old(x.mountpoint) != c.root;
      assert x in S && x.parent == c && x != c && !x.umount && x.mountpoint != c.root;
    }
  }

  /** The lists at the end of the first part, and what waits. */
  datatype Outlook = Outlook(p: Pending, waiting: seq<Mount>)

  twostate lemma GoneAsBefore(k: Call, new d: Outlook)
    requires Decided(k.S, d.p, k.was, k.cand, d.waiting) && SameShape(k.S) && k.was == old(Unmounted(k.S)) && old(ParentsIn(k.S))
    ensures UnmountedExactly(k.S, k.cand, d.p.umounts)
  {
    hide Decided, NoDup, Held, StillHeld, Unlockable, LockGaveWay;
    NowGrounded(k.S, d.p, k.was, k.cand, d.waiting);
    forall c | c in k.S && old(!c.umount)
      ensures c.umount <==> c in k.cand && !StillHeld(k.S, c) && LockGaveWay(k.S, c)
    {
      GoneExactly(k.S, d.p, k.was, k.cand, d.waiting, c);
      HeldAsBefore(InSet(k.S, c));
    }
  }

  twostate lemma CouldGoBefore(k: Call)
    requires SameShape(k.S)
    ensures forall X: set<Mount> {:trigger old(CouldGo(k.S, k.was, k.cand, X))} ::
      X <= k.S && old(CouldGo(k.S, k.was, k.cand, X)) ==> CouldGo(k.S, k.was, k.cand, X)
  {
    forall X: set<Mount> {:trigger old(CouldGo(k.S, k.was, k.cand, X))} | X <= k.S && old(CouldGo(k.S, k.was, k.cand, X))
      ensures CouldGo(k.S, k.was, k.cand, X)
    {
    }
  }

  twostate lemma LargestGone(k: Call, new d: Outlook)
    requires Decided(k.S, d.p, k.was, k.cand, d.waiting) && SameShape(k.S) && k.was == old(Unmounted(k.S))
    ensures NothingElse(k.S, k.cand)
  {
    hide Decided, CouldGo, SameShape, Unmounted;
    CouldGoBefore(k);
    forall X: set<Mount>, c | X <= k.S && old(CouldGo(k.S, Unmounted(k.S), k.cand, X)) && c in X
      ensures c.umount
    {
      AllGone(k.S, d.p, k.was, k.cand, d.waiting, X, c);
    }
  }

  lemma DecideAll(S: set<Mount>, p: Pending, was: set<Mount>, cand: set<Mount>, waiting: seq<Mount>)
    requires Working(S, p, was, cand) && Cleared(S, p, p.umounts, []) && Settled(S, waiting, null) && Apart(S, was)
    requires forall c {:trigger c in cand} :: c in S && c in cand ==> (c.umount || c in waiting) && c.parent != c
    ensures Decided(S, p, was, cand, waiting)
  {
    hide Working, Settled, Cleared;
  }

  lemma Collected(S: set<Mount>, p: Pending, was: set<Mount>, cand: set<Mount>)
    requires Collecting(S, p, was, cand, null)
    ensures Working(S, p, was, cand) && Settled(S, p.restore, null)
    ensures forall c {:trigger c.parent} :: c in S && c in cand ==> c.parent != c
  {
    hide Working, Settled;
  }

  /** Between umount_list and restore_mounts, against the state before the call. */
  twostate predicate Chosen(S: set<Mount>, cand: set<Mount>, new p: Pending)
    requires old(Tree(S))
    reads S
  {
    && UnmountedExactly(S, cand, p.umounts) && NothingElse(S, cand) && SameShape(S)
    && Tree(S) && Listed(S) && Grounded(S, p.umounts) && NoDup(p.restore) && Within(p.restore, S)
    && (forall m {:trigger m.umount} :: m in S && m in p.restore ==> !m.umount)
    && (forall m {:trigger m.umount} :: m in S && !m.umount && m !in p.restore ==> !m.parent.umount)
    && (forall m {:trigger m.marked} :: m in S && m.marked ==> m in p.restore)
  }

  /** Everything up to umount_list. */
  method Choose(ghost S: set<Mount>, ghost top: int, hash: seq<Mount>, list: seq<Mount>) returns (q: Pending)
    requires Ready(S, top, hash, list)
    modifies S`umount, S`marked, S`mounts
    ensures Chosen(S, old(Candidates(S, hash, list)), q)
  {
    hide WellFormed, RankedBelow, NoDup, Tree, Listed, Working, Collecting, ToSpread, AllSpread, SweptOne, Candidates, Unmounted,
      Settled, Cleared, Grounded, UnmountedExactly, NothingElse, Decided;
    ghost var cand, was := Candidates(S, hash, list), Unmounted(S);
    StartCollecting(S, top, hash, list);
    var p := Collect(S, top, hash, list, was, cand);
    Collected(S, p, was, cand);
    forall c | c in S && c in cand ensures (c.umount || c in p.restore) && c.parent != c {
      AllLookedAt(S, hash, list, p, c);
    }
    q := UmountList(S, p, was, cand, p.restore);
    DecideAll(S, q, was, cand, p.restore);
    NowGrounded(S, q, was, cand, p.restore);
    GoneAsBefore(Call(S, was, cand), Outlook(q, p.restore));
    LargestGone(Call(S, was, cand), Outlook(q, p.restore));
  }

  /** A mount that is where it belonged has taken the place of what went above it. */
  twostate lemma BelongsByWay(b: InSet)
    requires b.m in b.S && b.m.parent in b.S && old(b.m.parent) in b.S && old(b.m.parent).umount
    requires forall m {:trigger m.umount} :: m in b.S ==> m.umount == old(m.umount)
    requires var parent, mp := b.m.parent, b.m.mountpoint; old(Belongs(b.S, b.m, parent, mp))
    ensures MovedUp(b.S, b.m)
  {
    var parent, mp := b.m.parent, b.m.mountpoint;
    var way: seq<Mount> :| Within(way, b.S) && old(GoneWay(b.S, way, b.m.parent))
      && parent == old(way[|way| - 1].parent) && mp == old(way[|way| - 1].mountpoint);
    assert TookPlace(b.S, b.m, way);
  }

  twostate lemma BelongsThere(b: InSet)
    requires b.m in b.S && b.m.parent in b.S && old(b.m.parent) in b.S && !old(b.m.parent.umount)
    requires var parent, mp := b.m.parent, b.m.mountpoint; old(Belongs(b.S, b.m, parent, mp))
    ensures b.m.parent == old(b.m.parent) && b.m.mountpoint == old(b.m.mountpoint)
  {
  }

  lemma InTree(S: set<Mount>)
    requires Tree(S)
    ensures ParentsIn(S)
  {
  }

  /** What is waiting is put down where it belongs; the rest is there. */
  method PutBack(ghost S: set<Mount>, q: Pending)
    requires Tree(S) && Listed(S) && Grounded(S, q.umounts) && NoDup(q.restore) && Within(q.restore, S)
    requires forall m {:trigger m.umount} :: m in S && m in q.restore ==> !m.umount
    requires forall m {:trigger m.umount} :: m in S && !m.umount && m !in q.restore ==> !m.parent.umount
    requires forall m {:trigger m.marked} :: m in S && m.marked ==> m in q.restore
    modifies S`mounts, S`parent, S`mountpoint, S`marked
    ensures Tree(S) && Listed(S) && Sound(S) && LandedExactly(S)
    ensures forall m {:trigger m.marked} :: m in S ==> !m.marked
  {
    hide NoDup, Tree, Listed, Belongs, Grounded, MovedUp;
    InTree(S);
    RestoreMounts(S, q.restore, q.umounts);
    InTree(S);
    forall c | c in S
      ensures old(c.parent) in S && (!c.umount ==> !c.parent.umount)
      ensures if c.umount || !old(c.parent).umount then c.parent == old(c.parent) && c.mountpoint == old(c.mountpoint) else MovedUp(S, c)
    {
      if c in q.restore {
        if old(c.parent).umount { BelongsByWay(InSet(S, c)); } else { BelongsThere(InSet(S, c)); }
      }
    }
  }

  /**
   propagate_umount: what goes is the largest set of candidates that nothing holds, and what stays is exactly where it
   belongs.
   */
  method PropagateUmount(ghost S: set<Mount>, ghost top: int, hash: seq<Mount>, list: seq<Mount>) returns (r: seq<Mount>)
    requires Ready(S, top, hash, list)
    modifies S`umount, S`marked, S`mounts, S`parent, S`mountpoint
    ensures list <= r && UnmountedExactly(S, old(Candidates(S, hash, list)), r[|list|..])
    ensures NothingElse(S, old(Candidates(S, hash, list)))
    ensures LandedExactly(S)
    ensures Tree(S) && Listed(S) && Sound(S)
    ensures forall m {:trigger m.marked} :: m in S ==> !m.marked
  {
    hide Fixed, NoDup, Tree, Listed, Sound, Candidates, Grounded, UnmountedExactly, NothingElse;
    InTree(S);
    var q := Choose(S, top, hash, list);
    label L:
    PutBack(S, q);
    forall c | c in S && !c.umount && old(c.parent).umount ensures MovedUp(S, c) {
      assert MovedUp@L(S, c);
      ghost var way: seq<Mount> :| Within(way, S) && TookPlace@L(S, c, way);
      assert TookPlace(S, c, way);
    }
    r := list + q.umounts;
    assert r[|list|..] == q.umounts;
  }
}
